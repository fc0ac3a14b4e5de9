/** The flat control responses of a server as a grammar of their own: what they
    say, when that is well formed, and how they are printed. The line tests of
    the quarantine accept exactly the prints (bridge/structure_quarantine.go:712-862,
    section 7 of RFC 3501). */
module ControlGrammar {
  import opened Octets
  import opened Wrappers
  import opened QuarantineLexis

  // ---- Names in any case ----

  /** How one letter of a name is written. Long S and dotless I are letters
      whose upper case is the ASCII letter. */
  datatype Case = Capital | Small | Foreign

  datatype Name = Name(word: bytes, cases: seq<Case>)

  predicate Capitals(word: bytes) {
    forall i :: 0 <= i < |word| ==> 0x41 <= word[i] <= 0x5a
  }

  predicate WfName(n: Name) {
    && |n.cases| == |n.word| && n.word != [] && Capitals(n.word)
    && forall i :: 0 <= i < |n.word| && n.cases[i].Foreign? ==> n.word[i] == 0x53 || n.word[i] == 0x49
  }

  function Letter(capital: byte, c: Case): bytes {
    match c
    case Capital => [capital]
    case Small => [(capital + 0x20) % 0x100]
    case Foreign => if capital == 0x53 then [0xc5, 0xbf] else [0xc4, 0xb1]
  }

  function Letters(word: bytes, cases: seq<Case>): bytes {
    if word == [] || cases == [] then [] else Letter(word[0], cases[0]) + Letters(word[1..], cases[1..])
  }

  function PrintName(n: Name): bytes {
    Letters(n.word, n.cases)
  }

  predicate NameOctets(s: bytes) {
    forall i :: 0 <= i < |s| ==> s[i] > 0x40
  }

  lemma LetterUpper(capital: byte, c: Case, later: bytes, target: bytes)
    requires 0x41 <= capital <= 0x5a && (c.Foreign? ==> capital == 0x53 || capital == 0x49)
    requires UpperIs(later, target) && NameOctets(later)
    ensures UpperIs(Letter(capital, c) + later, [capital] + target) && NameOctets(Letter(capital, c) + later)
  {
    var s := Letter(capital, c) + later;
    assert s[|Letter(capital, c)|..] == later && ([capital] + target)[1..] == target;
  }

  lemma {:induction false} LettersUpper(word: bytes, cases: seq<Case>)
    requires |cases| == |word| && Capitals(word)
    requires forall i :: 0 <= i < |word| && cases[i].Foreign? ==> word[i] == 0x53 || word[i] == 0x49
    ensures UpperIs(Letters(word, cases), word) && NameOctets(Letters(word, cases))
    ensures |Letters(word, cases)| >= |word|
    decreases |word|
  {
    if word != [] {
      hide UpperIs, NameOctets;
      LettersUpper(word[1..], cases[1..]);
      LetterUpper(word[0], cases[0], Letters(word[1..], cases[1..]), word[1..]);
      assert [word[0]] + word[1..] == word;
    }
  }

  /** The cases in which name spells word. */
  function Cases(name: bytes, word: bytes): (cases: seq<Case>)
    requires UpperIs(name, word)
    decreases |name|
  {
    if word == [] then []
    else if |name| >= 1 && Upper(name[0]) == word[0] && UpperIs(name[1..], word[1..]) then
      [if name[0] == word[0] then Capital else Small] + Cases(name[1..], word[1..])
    else [Foreign] + Cases(name[2..], word[1..])
  }

  lemma UpperCases(b: byte, capital: byte)
    requires Upper(b) == capital && 0x41 <= capital <= 0x5a
    ensures b == capital || b == capital + 0x20
  {
  }

  lemma {:induction false} CasesSpell(name: bytes, word: bytes)
    requires UpperIs(name, word) && Capitals(word)
    ensures var cases := Cases(name, word);
            && |cases| == |word| && Letters(word, cases) == name
            && forall i :: 0 <= i < |word| && cases[i].Foreign? ==> word[i] == 0x53 || word[i] == 0x49
    decreases |name|
  {
    if word != [] {
      hide Upper;
      var cases := Cases(name, word);
      var n := if |name| >= 1 && Upper(name[0]) == word[0] && UpperIs(name[1..], word[1..]) then 1 else 2;
      if n == 1 {
        UpperCases(name[0], word[0]);
      }
      assert UpperIs(name[n..], word[1..]);
      CasesSpell(name[n..], word[1..]);
      assert cases[1..] == Cases(name[n..], word[1..]);
      assert name == Letter(word[0], cases[0]) + name[n..];
    }
  }

  /** A name is the word in upper case exactly when it writes every letter of it
      as a capital, as a small letter or, for S and I, as the foreign letter. */
  lemma UpperIsSpelled(name: bytes, word: bytes)
    requires word != [] && Capitals(word)
    ensures UpperIs(name, word) <==> exists n :: WfName(n) && n.word == word && PrintName(n) == name
  {
    if UpperIs(name, word) {
      CasesSpell(name, word);
      var n := Name(word, Cases(name, word));
      assert WfName(n) && PrintName(n) == name;
    }
    forall n | WfName(n) && n.word == word && PrintName(n) == name ensures UpperIs(name, word) {
      LettersUpper(word, n.cases);
    }
  }

  /** A number is read exactly from its shortest decimal spelling. */
  lemma NumberIff(s: bytes, zero: bool, n: nat)
    ensures Number(s, zero) == Some(n) <==> s == Decimal(n) && n <= MAX_UINT32 && (n == 0 ==> zero)
  {
    hide Decimal, DecimalValue;
    if Canonical(s) {
      CanonicalIsDecimal(s);
      DecimalRoundTrip(DecimalValue(s));
    }
    if s == Decimal(n) {
      DecimalRoundTrip(n);
    }
  }

  // ---- Responses ----

  /** Quoted text spells quotes and backslashes with a backslash before them. */
  datatype Inner = Ordinary(b: byte) | Escaped(b: byte)

  /** The arguments of a search response, piece by piece. */
  datatype Piece = Bare(b: byte) | InQuotes(inner: seq<Inner>)

  datatype Control =
    | Continuation(text: Option<bytes>)
    | Tagged(tag: bytes, status: Name, text: Option<bytes>)
    | Counted(count: nat, what: Name)
    | Untagged(status: Name, text: Option<bytes>)
    | Capabilities(name: Name, list: seq<bytes>)
    | Flags(name: Name, list: seq<bytes>)
    | Searched(name: Name, arguments: Option<seq<Piece>>)

  const MARKS: set<byte> := {0x21, 0x23, 0x24, 0x26, 0x27, 0x2b, 0x2c, 0x2d, 0x2e, 0x2f, 0x3a, 0x3b, 0x3c, 0x3d, 0x3e,
                             0x3f, 0x40, 0x5b, 0x5e, 0x5f, 0x60, 0x7c, 0x7d, 0x7e}

  /** A letter, a digit or one of the marks an atom may hold. */
  predicate AtomMark(b: byte) {
    0x30 <= b <= 0x39 || 0x41 <= b <= 0x5a || 0x61 <= b <= 0x7a || b in MARKS
  }

  predicate WfAtom(s: bytes, without: byte) {
    s != [] && forall i :: 0 <= i < |s| ==> AtomMark(s[i]) && s[i] != without
  }

  predicate WfText(text: Option<bytes>) {
    text.Some? && text.value != [] && text.value[0] == LBRACKET ==> exists k :: 0 <= k < |text.value| && text.value[k] == RBRACKET
  }

  /** A flag is a keyword, or a backslash and one. */
  predicate WfFlag(s: bytes) {
    WfAtom(s, RBRACE) || (s != [] && s[0] == BACKSLASH && WfAtom(s[1..], RBRACE))
  }

  predicate Printable(b: byte) {
    0x20 <= b <= 0x7e
  }

  predicate WfInner(x: Inner) {
    match x
    case Ordinary(b) => Printable(b) && b !in {QUOTE, BACKSLASH, LBRACE, RBRACE}
    case Escaped(b) => b == QUOTE || b == BACKSLASH
  }

  predicate WfPiece(p: Piece) {
    match p
    case Bare(b) => Printable(b) && b !in {QUOTE, LBRACE, RBRACE}
    case InQuotes(inner) => forall i :: 0 <= i < |inner| ==> WfInner(inner[i])
  }

  predicate WfPieces(ps: seq<Piece>) {
    forall i :: 0 <= i < |ps| ==> WfPiece(ps[i])
  }

  predicate WfControl(c: Control) {
    match c
    case Continuation(text) => WfText(text)
    case Tagged(tag, status, text) => WfAtom(tag, PLUS) && WfName(status) && status.word in {OK, NO, BAD} && WfText(text)
    case Counted(count, what) =>
      count <= MAX_UINT32 && WfName(what) && what.word in {EXISTS, RECENT, EXPUNGE} && (what.word == EXPUNGE ==> count > 0)
    case Untagged(status, text) => WfName(status) && status.word in {OK, NO, BAD, BYE, PREAUTH} && WfText(text)
    case Capabilities(name, list) =>
      WfName(name) && name.word == CAPABILITY && list != [] && forall i :: 0 <= i < |list| ==> WfAtom(list[i], RBRACE)
    case Flags(name, list) => WfName(name) && name.word == FLAGS && forall i :: 0 <= i < |list| ==> WfFlag(list[i])
    case Searched(name, arguments) =>
      WfName(name) && name.word in {SEARCH, ESEARCH} && (arguments.Some? ==> WfPieces(arguments.value))
  }

  /** Nothing, or a space and the text. */
  function Spaced(text: Option<bytes>): bytes {
    if text.None? then [] else [SP] + text.value
  }

  /** The words with one space between any two. */
  function Words(list: seq<bytes>): bytes {
    if list == [] then [] else if |list| == 1 then list[0] else list[0] + [SP] + Words(list[1..])
  }

  function PrintInner(inner: seq<Inner>): bytes {
    if inner == [] then []
    else (if inner[0].Ordinary? then [inner[0].b] else [BACKSLASH, inner[0].b]) + PrintInner(inner[1..])
  }

  function PrintPieces(ps: seq<Piece>): bytes {
    if ps == [] then []
    else (if ps[0].Bare? then [ps[0].b] else [QUOTE] + PrintInner(ps[0].inner) + [QUOTE]) + PrintPieces(ps[1..])
  }

  function PrintControl(c: Control): bytes {
    match c
    case Continuation(text) => [PLUS] + Spaced(text)
    case Tagged(tag, status, text) => tag + [SP] + PrintName(status) + Spaced(text)
    case Counted(count, what) => [STAR, SP] + Decimal(count) + [SP] + PrintName(what)
    case Untagged(status, text) => [STAR, SP] + PrintName(status) + Spaced(text)
    case Capabilities(name, list) => [STAR, SP] + PrintName(name) + [SP] + Words(list)
    case Flags(name, list) => [STAR, SP] + PrintName(name) + [SP, LPAREN] + Words(list) + [RPAREN]
    case Searched(name, arguments) =>
      [STAR, SP] + PrintName(name) + Spaced(if arguments.None? then None else Some(PrintPieces(arguments.value)))
  }

  // ---- Words and texts ----

  lemma AtomIff(s: bytes, without: byte)
    ensures WfAtom(s, without) <==> Atom(s) && without !in s
  {
    forall b: byte ensures AtomMark(b) <==> AtomChar(b) {
    }
  }

  lemma TextIff(text: Option<bytes>)
    ensures WfText(text) <==> (text.Some? ==> StatusText(text.value))
  {
  }

  lemma FlagIff(s: bytes)
    ensures WfFlag(s) <==> Flag(s) && RBRACE !in s
  {
    AtomIff(s, RBRACE);
    if s != [] {
      AtomIff(s[1..], RBRACE);
    }
    hide WfAtom;
  }

  /** The text after the first space of a line, if it has one. */
  function After(s: bytes): Option<bytes> {
    var (_, rest, more) := Cut(s, SP);
    if more then Some(rest) else None
  }

  lemma CutSpaced(word: bytes, text: Option<bytes>)
    requires SP !in word
    ensures Cut(word + Spaced(text), SP) == (word, if text.Some? then text.value else [], text.Some?)
  {
    hide Cut;
    if text.Some? {
      CutAt(word, text.value, SP);
      assert word + [SP] + text.value == word + ([SP] + text.value);
    } else {
      CutAt(word, [], SP);
      assert word + [] == word;
    }
  }

  lemma CutJoins(s: bytes)
    ensures var (word, rest, more) := Cut(s, SP);
            s == word + Spaced(After(s)) && SP !in word && (!more ==> rest == [])
  {
    var i := Find(s, SP);
    if i < |s| {
      assert s == s[..i] + ([SP] + s[i + 1..]);
    }
  }

  /** The words of a text, split at every space. */
  function WordsOf(s: bytes): (list: seq<bytes>)
    ensures list != []
    decreases |s|
  {
    var (word, rest, more) := Cut(s, SP);
    if more then [word] + WordsOf(rest) else [word]
  }

  lemma {:induction false} WordsJoin(s: bytes)
    ensures Words(WordsOf(s)) == s
    decreases |s|
  {
    hide Find;
    CutJoins(s);
    var (word, rest, more) := Cut(s, SP);
    if more {
      WordsJoin(rest);
      var list := WordsOf(s);
      assert list[1..] == WordsOf(rest);
      assert word + [SP] + rest == word + ([SP] + rest);
    }
  }

  predicate All(list: seq<bytes>, word: bytes -> bool) {
    forall i :: 0 <= i < |list| ==> word(list[i])
  }

  lemma AllCons(first: bytes, later: seq<bytes>, word: bytes -> bool)
    ensures All([first] + later, word) <==> word(first) && All(later, word)
  {
    var list := [first] + later;
    assert list[0] == first && forall i :: 0 <= i < |later| ==> list[i + 1] == later[i];
  }

  lemma {:induction false} EveryWordIff(s: bytes, word: bytes -> bool)
    ensures EveryWord(s, word) <==> All(WordsOf(s), word)
    decreases |s|
  {
    hide Find;
    var (first, rest, more) := Cut(s, SP);
    if more {
      EveryWordIff(rest, word);
      AllCons(first, WordsOf(rest), word);
    } else {
      AllCons(first, [], word);
      assert [first] + [] == [first];
    }
  }

  lemma {:induction false} WordsSplit(list: seq<bytes>)
    requires list != [] && forall i :: 0 <= i < |list| ==> SP !in list[i]
    ensures WordsOf(Words(list)) == list
    decreases |list|
  {
    hide Cut;
    if |list| == 1 {
      CutAt(list[0], [], SP);
    } else {
      CutAt(list[0], Words(list[1..]), SP);
      WordsSplit(list[1..]);
    }
  }

  /** Which octets a text of words holds besides its spaces. */
  lemma {:induction false} WordsHold(list: seq<bytes>, b: byte)
    requires b != SP
    ensures b in Words(list) <==> exists i :: 0 <= i < |list| && b in list[i]
    decreases |list|
  {
    if |list| > 1 {
      WordsHold(list[1..], b);
      if exists i :: 0 <= i < |list| && b in list[i] {
        var i :| 0 <= i < |list| && b in list[i];
        if i > 0 {
          assert list[1..][i - 1] == list[i];
        }
      }
      if b in Words(list[1..]) {
        var i :| 0 <= i < |list| - 1 && b in list[1..][i];
        assert list[1..][i] == list[i + 1];
      }
    }
  }

  // ---- Search arguments ----

  lemma {:induction false} InnerFlat(inner: seq<Inner>, rest: bytes)
    requires forall i :: 0 <= i < |inner| ==> WfInner(inner[i])
    ensures FlatFrom(PrintInner(inner) + [QUOTE] + rest, true, false) == FlatFrom(rest, false, false)
    decreases |inner|
  {
    var s := PrintInner(inner) + [QUOTE] + rest;
    if inner == [] {
      assert s[0] == QUOTE && s[1..] == rest;
    } else {
      var later := PrintInner(inner[1..]) + [QUOTE] + rest;
      assert WfInner(inner[0]);
      InnerFlat(inner[1..], rest);
      if inner[0].Ordinary? {
        assert s[0] == inner[0].b && s[1..] == later;
      } else {
        assert s[0] == BACKSLASH && s[1] == inner[0].b && s[1..][0] == s[1] && s[1..][1..] == later;
      }
    }
  }

  lemma {:induction false} PiecesFlat(ps: seq<Piece>)
    requires WfPieces(ps)
    ensures Flat(PrintPieces(ps))
    decreases |ps|
  {
    if ps != [] {
      var s, later := PrintPieces(ps), PrintPieces(ps[1..]);
      assert WfPiece(ps[0]);
      PiecesFlat(ps[1..]);
      if ps[0].Bare? {
        assert s[0] == ps[0].b && s[1..] == later;
      } else {
        InnerFlat(ps[0].inner, later);
        assert s[0] == QUOTE && s[1..] == PrintInner(ps[0].inner) + [QUOTE] + later;
      }
    }
  }

  lemma EscapedFlat(s: bytes)
    requires s != [] && s[0] == BACKSLASH && FlatFrom(s, true, false)
    ensures |s| >= 2 && WfInner(Escaped(s[1])) && FlatFrom(s[2..], true, false)
  {
    assert FlatFrom(s[1..], true, true);
    assert s[1..][1..] == s[2..] && s[1..][0] == s[1];
  }

  /** The pieces of a flat text; inside quotes, the inner characters so far come first. */
  function Pieces(s: bytes, inner: seq<Inner>, quoted: bool): seq<Piece>
    requires FlatFrom(s, quoted, false)
    decreases |s|
  {
    if s == [] then []
    else if quoted && s[0] == BACKSLASH then
      EscapedFlat(s);
      Pieces(s[2..], inner + [Escaped(s[1])], true)
    else if s[0] == QUOTE then
      if quoted then [InQuotes(inner)] + Pieces(s[1..], [], false) else Pieces(s[1..], [], true)
    else if quoted then Pieces(s[1..], inner + [Ordinary(s[0])], true)
    else [Bare(s[0])] + Pieces(s[1..], [], false)
  }

  lemma {:induction false} InnerMore(inner: seq<Inner>, x: Inner)
    ensures PrintInner(inner + [x]) == PrintInner(inner) + PrintInner([x])
    decreases |inner|
  {
    if inner == [] {
      assert inner + [x] == [x];
    } else {
      assert (inner + [x])[1..] == inner[1..] + [x];
      InnerMore(inner[1..], x);
    }
  }

  predicate WfInners(inner: seq<Inner>) {
    forall i :: 0 <= i < |inner| ==> WfInner(inner[i])
  }

  /** A text whose pieces were read, with the quoted text before it. */
  ghost predicate PiecesRead(s: bytes, inner: seq<Inner>, quoted: bool) {
    && FlatFrom(s, quoted, false)
    && var ps := Pieces(s, inner, quoted);
       WfPieces(ps) && PrintPieces(ps) == if quoted then [QUOTE] + PrintInner(inner) + s else s
  }

  lemma OneMore(s: bytes, inner: seq<Inner>, x: Inner, n: nat)
    requires WfInner(x) && WfInners(inner) && n <= |s| && PrintInner([x]) == s[..n]
    ensures WfInners(inner + [x])
    ensures [QUOTE] + PrintInner(inner + [x]) + s[n..] == [QUOTE] + PrintInner(inner) + s
  {
    hide WfInner;
    InnerMore(inner, x);
    assert s == s[..n] + s[n..];
    assert [QUOTE] + (PrintInner(inner) + s[..n]) + s[n..] == [QUOTE] + PrintInner(inner) + (s[..n] + s[n..]);
  }

  lemma EscapedFirst(s: bytes, inner: seq<Inner>)
    requires s != [] && s[0] == BACKSLASH && FlatFrom(s, true, false)
    ensures |s| >= 2 && WfInner(Escaped(s[1])) && FlatFrom(s[2..], true, false)
    ensures Pieces(s, inner, true) == Pieces(s[2..], inner + [Escaped(s[1])], true) && PrintInner([Escaped(s[1])]) == s[..2]
  {
    EscapedFlat(s);
    assert [Escaped(s[1])][1..] == [];
  }

  lemma EscapedRead(s: bytes, inner: seq<Inner>)
    requires s != [] && s[0] == BACKSLASH && FlatFrom(s, true, false) && WfInners(inner)
    requires |s| >= 2 && WfInner(Escaped(s[1])) && PiecesRead(s[2..], inner + [Escaped(s[1])], true)
    ensures PiecesRead(s, inner, true)
  {
    hide WfInners, WfPieces, FlatFrom, Pieces, PrintInner, PrintPieces;
    EscapedFirst(s, inner);
    OneMore(s, inner, Escaped(s[1]), 2);
  }

  lemma OrdinaryFirst(s: bytes, inner: seq<Inner>)
    requires s != [] && s[0] != BACKSLASH && s[0] != QUOTE && FlatFrom(s, true, false)
    ensures WfInner(Ordinary(s[0])) && FlatFrom(s[1..], true, false)
    ensures Pieces(s, inner, true) == Pieces(s[1..], inner + [Ordinary(s[0])], true) && PrintInner([Ordinary(s[0])]) == s[..1]
  {
    assert [Ordinary(s[0])][1..] == [];
  }

  lemma OrdinaryRead(s: bytes, inner: seq<Inner>)
    requires s != [] && s[0] != BACKSLASH && s[0] != QUOTE && FlatFrom(s, true, false) && WfInners(inner)
    requires PiecesRead(s[1..], inner + [Ordinary(s[0])], true)
    ensures PiecesRead(s, inner, true)
  {
    hide WfInners, WfPieces, FlatFrom, Pieces, PrintInner, PrintPieces;
    OrdinaryFirst(s, inner);
    OneMore(s, inner, Ordinary(s[0]), 1);
  }

  lemma QuoteRead(s: bytes, inner: seq<Inner>, quoted: bool)
    requires s != [] && s[0] == QUOTE && FlatFrom(s, quoted, false) && WfInners(inner) && (!quoted ==> inner == [])
    requires PiecesRead(s[1..], [], !quoted)
    ensures PiecesRead(s, inner, quoted)
  {
    hide FlatFrom, PrintInner;
    var ps, later := Pieces(s, inner, quoted), Pieces(s[1..], [], !quoted);
    assert s == [QUOTE] + s[1..];
    if quoted {
      assert ps[0] == InQuotes(inner) && ps[1..] == later;
      assert [QUOTE] + PrintInner(inner) + [QUOTE] + s[1..] == [QUOTE] + PrintInner(inner) + ([QUOTE] + s[1..]);
    } else {
      NoInner();
      assert [QUOTE] + [] + s[1..] == s;
    }
  }

  lemma NoInner()
    ensures PrintInner([]) == []
  {
  }

  lemma BareFirst(s: bytes)
    requires s != [] && s[0] != QUOTE && FlatFrom(s, false, false)
    ensures WfPiece(Bare(s[0])) && FlatFrom(s[1..], false, false)
    ensures Pieces(s, [], false) == [Bare(s[0])] + Pieces(s[1..], [], false)
  {
  }

  lemma BareMore(b: byte, ps: seq<Piece>)
    requires WfPiece(Bare(b)) && WfPieces(ps)
    ensures WfPieces([Bare(b)] + ps) && PrintPieces([Bare(b)] + ps) == [b] + PrintPieces(ps)
  {
    hide WfPiece, PrintInner;
    assert ([Bare(b)] + ps)[1..] == ps;
  }

  lemma BareRead(s: bytes)
    requires s != [] && s[0] != QUOTE && FlatFrom(s, false, false)
    requires PiecesRead(s[1..], [], false)
    ensures PiecesRead(s, [], false)
  {
    hide FlatFrom, WfPiece, WfPieces, Pieces, PrintPieces;
    BareFirst(s);
    BareMore(s[0], Pieces(s[1..], [], false));
    assert s == [s[0]] + s[1..];
  }

  lemma {:induction false} PiecesPrint(s: bytes, inner: seq<Inner>, quoted: bool)
    requires FlatFrom(s, quoted, false) && WfInners(inner) && (!quoted ==> inner == [])
    ensures PiecesRead(s, inner, quoted)
    decreases |s|
  {
    if s != [] {
      hide PrintPieces, PrintInner, WfPieces, Pieces, PiecesRead;
      if quoted && s[0] == BACKSLASH {
        EscapedFlat(s);
        var x := Escaped(s[1]);
        PiecesPrint(s[2..], inner + [x], true);
        EscapedRead(s, inner);
      } else if s[0] == QUOTE {
        PiecesPrint(s[1..], [], !quoted);
        QuoteRead(s, inner, quoted);
      } else if quoted {
        PiecesPrint(s[1..], inner + [Ordinary(s[0])], true);
        OrdinaryRead(s, inner);
      } else {
        PiecesPrint(s[1..], [], false);
        BareRead(s);
      }
    }
  }

  lemma FlatIff(s: bytes)
    ensures Flat(s) <==> exists ps :: WfPieces(ps) && PrintPieces(ps) == s
  {
    if Flat(s) {
      PiecesPrint(s, [], false);
    }
    forall ps | WfPieces(ps) && PrintPieces(ps) == s ensures Flat(s) {
      PiecesFlat(ps);
    }
  }

  // ---- Whole lines ----

  lemma NamePlain(n: Name)
    requires WfName(n)
    ensures UpperIs(PrintName(n), n.word)
    ensures var s := PrintName(n); s != [] && !IsDigit(s[0]) && SP !in s && PLUS !in s
  {
    LettersUpper(n.word, n.cases);
  }

  /** A line is printed by some well formed response. */
  ghost predicate Prints(line: bytes) {
    exists c :: WfControl(c) && PrintControl(c) == line
  }

  lemma DecimalPlain(n: nat)
    ensures Decimal(n) != [] && IsDigit(Decimal(n)[0]) && SP !in Decimal(n)
  {
    hide Decimal;
  }

  lemma StarPrefix(rest: bytes)
    ensures HasPrefix([STAR, SP] + rest, [STAR, SP]) && ([STAR, SP] + rest)[0] == STAR && ([STAR, SP] + rest)[2..] == rest
  {
    assert ([STAR, SP] + rest)[..2] == [STAR, SP];
  }

  lemma UntaggedLine(word: bytes, text: Option<bytes>)
    requires SP !in word && word != []
    ensures var line := [STAR, SP] + word + Spaced(text);
            && HasPrefix(line, [STAR, SP]) && line[0] == STAR
            && Cut(line[2..], SP) == (word, if text.Some? then text.value else [], text.Some?)
  {
    hide Cut, HasPrefix, Spaced;
    CutSpaced(word, text);
    StarPrefix(word + Spaced(text));
    assert [STAR, SP] + (word + Spaced(text)) == [STAR, SP] + word + Spaced(text);
  }

  /** The letters of a name are ordinary characters of an atom. */
  lemma {:induction false} LettersPlain(word: bytes, cases: seq<Case>)
    requires |cases| == |word| && Capitals(word)
    ensures forall i :: 0 <= i < |Letters(word, cases)| ==>
              0x41 <= Letters(word, cases)[i] <= 0x5a || 0x61 <= Letters(word, cases)[i] <= 0x7a || 0xa0 <= Letters(word, cases)[i]
    decreases |word|
  {
    if word != [] {
      LettersPlain(word[1..], cases[1..]);
    }
  }

  /** A name has one upper case. */
  lemma {:induction false} UpperOne(name: bytes, a: bytes, b: bytes)
    requires UpperIs(name, a) && UpperIs(name, b) && Capitals(a) && Capitals(b)
    ensures a == b
    decreases |name|
  {
    if a != [] && b != [] {
      assert a[0] == b[0];
      var n := if name[0] < 0x80 then 1 else 2;
      assert UpperIs(name[n..], a[1..]) && UpperIs(name[n..], b[1..]);
      UpperOne(name[n..], a[1..], b[1..]);
      assert a == [a[0]] + a[1..] && b == [b[0]] + b[1..];
    }
  }

  /** A printed name is its own word and no other. */
  lemma NameIs(n: Name, word: bytes)
    requires WfName(n) && Capitals(word)
    ensures UpperIs(PrintName(n), word) <==> n.word == word
  {
    NamePlain(n);
    hide UpperIs;
    if UpperIs(PrintName(n), word) {
      UpperOne(PrintName(n), n.word, word);
    }
  }

  lemma WordsAreCapital()
    ensures Capitals(OK) && Capitals(NO) && Capitals(BAD) && Capitals(BYE) && Capitals(PREAUTH) && Capitals(CAPABILITY)
    ensures Capitals(FLAGS) && Capitals(SEARCH) && Capitals(ESEARCH) && Capitals(EXISTS) && Capitals(RECENT) && Capitals(EXPUNGE)
  {
  }

  lemma NameIsNone(n: Name)
    requires WfName(n)
    ensures var name := PrintName(n);
            && (UpperIs(name, OK) <==> n.word == OK) && (UpperIs(name, NO) <==> n.word == NO)
            && (UpperIs(name, BAD) <==> n.word == BAD) && (UpperIs(name, BYE) <==> n.word == BYE)
            && (UpperIs(name, PREAUTH) <==> n.word == PREAUTH) && (UpperIs(name, CAPABILITY) <==> n.word == CAPABILITY)
            && (UpperIs(name, FLAGS) <==> n.word == FLAGS) && (UpperIs(name, SEARCH) <==> n.word == SEARCH)
            && (UpperIs(name, ESEARCH) <==> n.word == ESEARCH) && (UpperIs(name, EXISTS) <==> n.word == EXISTS)
            && (UpperIs(name, RECENT) <==> n.word == RECENT) && (UpperIs(name, EXPUNGE) <==> n.word == EXPUNGE)
  {
    hide UpperIs, WfName, PrintName, Capitals;
    WordsAreCapital();
    NameIs(n, OK);
    NameIs(n, NO);
    NameIs(n, BAD);
    NameIs(n, BYE);
    NameIs(n, PREAUTH);
    NameIs(n, CAPABILITY);
    NameIs(n, FLAGS);
    NameIs(n, SEARCH);
    NameIs(n, ESEARCH);
    NameIs(n, EXISTS);
    NameIs(n, RECENT);
    NameIs(n, EXPUNGE);
  }

  // ---- Every printed response is admitted ----

  lemma ContinuationPrinted(text: Option<bytes>)
    requires WfText(text)
    ensures ControlLine([PLUS] + Spaced(text))
  {
    TextIff(text);
    if text.Some? {
      assert ([PLUS] + Spaced(text))[2..] == text.value;
    }
  }

  /** A status of a tagged response after its tag. */
  lemma StatusPrinted(status: Name, text: Option<bytes>)
    requires WfName(status) && status.word in {OK, NO, BAD} && WfText(text)
    ensures var (name, rest, more) := Cut(PrintName(status) + Spaced(text), SP);
            (UpperIs(name, OK) || UpperIs(name, NO) || UpperIs(name, BAD)) && (more ==> StatusText(rest))
  {
    hide Cut, UpperIs, PrintName, WfText, StatusText, Spaced;
    TextIff(text);
    NamePlain(status);
    CutSpaced(PrintName(status), text);
  }

  lemma TaggedStarts(tag: bytes, rest: bytes)
    requires WfAtom(tag, PLUS)
    ensures var line := tag + [SP] + rest;
            Cut(line, SP) == (tag, rest, true) && line != [] && line[0] != PLUS && line[0] != STAR && Atom(tag) && PLUS !in tag
  {
    hide Cut, Atom, WfAtom;
    AtomIff(tag, PLUS);
    AtomPlain(tag);
    CutAt(tag, rest, SP);
    assert (tag + [SP] + rest)[0] == tag[0];
  }

  lemma TaggedPrinted(tag: bytes, status: Name, text: Option<bytes>)
    requires WfControl(Tagged(tag, status, text))
    ensures ControlLine(PrintControl(Tagged(tag, status, text)))
  {
    hide Cut, UpperIs, PrintName, Spaced, WfAtom, Atom, WfName, WfText, StatusText;
    TaggedStarts(tag, PrintName(status) + Spaced(text));
    StatusPrinted(status, text);
    TaggedJoin(tag, PrintName(status), Spaced(text));
  }

  lemma AtomPlain(s: bytes)
    requires Atom(s)
    ensures s != [] && SP !in s && s[0] != STAR
  {
  }

  lemma CountPrinted(count: nat, what: Name)
    requires WfControl(Counted(count, what))
    ensures NumberedLine(Decimal(count), PrintName(what), true)
  {
    hide Cut, UpperIs, PrintName, Decimal, Number;
    NumberIff(Decimal(count), true, count);
    NamePlain(what);
    CutSpaced(PrintName(what), None);
    assert PrintName(what) + [] == PrintName(what);
  }

  lemma CountedPrinted(count: nat, what: Name)
    requires WfControl(Counted(count, what))
    ensures ControlLine(PrintControl(Counted(count, what)))
  {
    hide Cut, UpperIs, PrintName, Decimal, NumberedLine, WfName;
    DecimalPlain(count);
    CountPrinted(count, what);
    UntaggedLine(Decimal(count), Some(PrintName(what)));
    assert PrintControl(Counted(count, what)) == [STAR, SP] + Decimal(count) + Spaced(Some(PrintName(what)));
  }

  lemma NamedPrinted(n: Name, text: Option<bytes>)
    requires WfName(n) && NamedLine(PrintName(n), if text.Some? then text.value else [], text.Some?)
    ensures ControlLine([STAR, SP] + PrintName(n) + Spaced(text))
  {
    hide Cut, UpperIs, PrintName, NamedLine;
    NamePlain(n);
    UntaggedLine(PrintName(n), text);
  }

  lemma UntaggedPrinted(status: Name, text: Option<bytes>)
    requires WfControl(Untagged(status, text))
    ensures ControlLine(PrintControl(Untagged(status, text)))
  {
    hide UpperIs, PrintName, ControlLine, StatusText, WfText, WfName;
    TextIff(text);
    NameIsNone(status);
    NamedPrinted(status, text);
  }

  lemma CapabilitiesPrinted(name: Name, list: seq<bytes>)
    requires WfControl(Capabilities(name, list))
    ensures ControlLine(PrintControl(Capabilities(name, list)))
  {
    hide UpperIs, PrintName, ControlLine, WfName, WfAtom, Atom, Words, EveryWord;
    forall i | 0 <= i < |list| ensures Atom(list[i]) && SP !in list[i] && LBRACE !in list[i] && RBRACE !in list[i] {
      AtomIff(list[i], RBRACE);
      AtomBare(list[i]);
    }
    WordsSplit(list);
    WordsHold(list, LBRACE);
    WordsHold(list, RBRACE);
    EveryWordIff(Words(list), Atom);
    NameIsNone(name);
    NamedPrinted(name, Some(Words(list)));
    assert PrintControl(Capabilities(name, list)) == [STAR, SP] + PrintName(name) + Spaced(Some(Words(list)));
  }

  lemma AtomBare(s: bytes)
    requires Atom(s)
    ensures SP !in s && LBRACE !in s
  {
  }

  lemma FlagBare(s: bytes)
    requires Flag(s)
    ensures SP !in s && LBRACE !in s && s != []
  {
    if s[0] == BACKSLASH {
      AtomBare(s[1..]);
      assert s == [s[0]] + s[1..];
    } else {
      AtomBare(s);
    }
  }

  lemma FlagsListed(list: seq<bytes>)
    requires forall i :: 0 <= i < |list| ==> WfFlag(list[i])
    ensures FlagList([LPAREN] + Words(list) + [RPAREN])
  {
    hide WfFlag, Flag, Words, EveryWord;
    var s := [LPAREN] + Words(list) + [RPAREN];
    assert s[1..|s| - 1] == Words(list);
    forall i | 0 <= i < |list| ensures Flag(list[i]) && SP !in list[i] && LBRACE !in list[i] && RBRACE !in list[i] {
      FlagIff(list[i]);
      FlagBare(list[i]);
    }
    WordsHold(list, LBRACE);
    WordsHold(list, RBRACE);
    if list == [] {
      NoWords();
    } else {
      WordsSplit(list);
      EveryWordIff(Words(list), Flag);
    }
  }

  lemma NoWords()
    ensures Words([]) == []
  {
  }

  lemma FlagsPrinted(name: Name, list: seq<bytes>)
    requires WfControl(Flags(name, list))
    ensures ControlLine(PrintControl(Flags(name, list)))
  {
    hide UpperIs, PrintName, ControlLine, WfName, WfFlag, FlagList, Words;
    FlagsListed(list);
    var text := [LPAREN] + Words(list) + [RPAREN];
    NameIsNone(name);
    NamedPrinted(name, Some(text));
    assert PrintControl(Flags(name, list)) == [STAR, SP] + PrintName(name) + Spaced(Some(text));
  }

  lemma SearchedPrinted(name: Name, arguments: Option<seq<Piece>>)
    requires WfControl(Searched(name, arguments))
    ensures ControlLine(PrintControl(Searched(name, arguments)))
  {
    hide UpperIs, PrintName, ControlLine, WfName, PrintPieces, WfPieces, Flat;
    NameIsNone(name);
    if arguments.Some? {
      PiecesFlat(arguments.value);
      NamedPrinted(name, Some(PrintPieces(arguments.value)));
    } else {
      NamedPrinted(name, None);
    }
  }

  lemma Printed(c: Control)
    requires WfControl(c)
    ensures ControlLine(PrintControl(c))
  {
    hide ControlLine, WfControl, PrintControl;
    match c
    case Continuation(text) => ContinuationControl(text);
    case Tagged(tag, status, text) => TaggedPrinted(tag, status, text);
    case Counted(count, what) => CountedPrinted(count, what);
    case Untagged(status, text) => UntaggedPrinted(status, text);
    case Capabilities(name, list) => CapabilitiesPrinted(name, list);
    case Flags(name, list) => FlagsPrinted(name, list);
    case Searched(name, arguments) => SearchedPrinted(name, arguments);
  }

  lemma ContinuationControl(text: Option<bytes>)
    requires WfControl(Continuation(text))
    ensures ControlLine(PrintControl(Continuation(text)))
  {
    hide ControlLine;
    ContinuationPrinted(text);
  }

  // ---- Every admitted line is printed ----

  /** The spelling of a name found on a line. */
  lemma NameSpelled(s: bytes, word: bytes) returns (n: Name)
    requires UpperIs(s, word) && word != [] && Capitals(word)
    ensures WfName(n) && n.word == word && PrintName(n) == s
  {
    UpperIsSpelled(s, word);
    n :| WfName(n) && n.word == word && PrintName(n) == s;
  }

  lemma ContinuationRead(line: bytes) returns (c: Control)
    requires line != [] && line[0] == PLUS && ContinuationLine(line)
    ensures WfControl(c) && PrintControl(c) == line
  {
    c := Continuation(if |line| == 1 then None else Some(line[2..]));
    TextIff(c.text);
  }

  lemma TaggedRead(line: bytes) returns (c: Control)
    requires TaggedLine(line)
    ensures WfControl(c) && PrintControl(c) == line
  {
    hide Cut, UpperIs, PrintName, WfName, WfAtom, Atom, WfText, StatusText, Capitals;
    CutJoins(line);
    var (tag, status, _) := Cut(line, SP);
    CutJoins(status);
    var (name, _, _) := Cut(status, SP);
    NothingCut();
    WordsAreCapital();
    var n := NameSpelled(name, if UpperIs(name, OK) then OK else if UpperIs(name, NO) then NO else BAD);
    AtomIff(tag, PLUS);
    TextIff(After(status));
    c := Tagged(tag, n, After(status));
    TaggedJoin(tag, name, Spaced(After(status)));
  }

  lemma TaggedJoin(tag: bytes, name: bytes, text: bytes)
    ensures tag + ([SP] + (name + text)) == tag + [SP] + name + text == tag + [SP] + (name + text)
  {
  }

  lemma NothingCut()
    ensures Cut([], SP) == ([], [], false)
    ensures !UpperIs([], OK) && !UpperIs([], NO) && !UpperIs([], BAD)
  {
  }

  lemma CountedRead(name: bytes, text: Option<bytes>) returns (c: Control)
    requires NumberedLine(name, if text.Some? then text.value else [], text.Some?)
    ensures WfControl(c) && PrintControl(c) == [STAR, SP] + name + Spaced(text)
  {
    hide Cut, UpperIs, PrintName, WfName, Decimal, Number, Capitals;
    var arguments := text.value;
    CutJoins(arguments);
    var (kind, _, extra) := Cut(arguments, SP);
    assert kind + [] == kind;
    var number := Number(name, true).value;
    NumberIff(name, true, number);
    WordsAreCapital();
    var n := NameSpelled(kind, if UpperIs(kind, EXISTS) then EXISTS else if UpperIs(kind, RECENT) then RECENT else EXPUNGE);
    c := Counted(number, n);
  }

  lemma WordsRead(s: bytes, word: bytes -> bool, b: byte)
    requires EveryWord(s, word) && b !in s && b != SP
    ensures var list := WordsOf(s);
            && Words(list) == s && forall i :: 0 <= i < |list| ==> word(list[i]) && b !in list[i]
  {
    hide Words, WordsOf, EveryWord;
    EveryWordIff(s, word);
    WordsJoin(s);
    WordsHold(WordsOf(s), b);
  }

  lemma CapabilitiesRead(n: Name, arguments: bytes) returns (c: Control)
    requires WfName(n) && n.word == CAPABILITY && NoBraces(arguments) && EveryWord(arguments, Atom)
    ensures WfControl(c) && PrintControl(c) == [STAR, SP] + PrintName(n) + Spaced(Some(arguments))
  {
    hide PrintName, WfName, WfAtom, Atom, Words, EveryWord, WordsOf;
    WordsRead(arguments, Atom, RBRACE);
    var list := WordsOf(arguments);
    forall i | 0 <= i < |list| ensures WfAtom(list[i], RBRACE) {
      AtomIff(list[i], RBRACE);
    }
    c := Capabilities(n, list);
    assert [STAR, SP] + PrintName(n) + [SP] + arguments == [STAR, SP] + PrintName(n) + ([SP] + arguments);
  }

  lemma FlagsRead(n: Name, arguments: bytes) returns (c: Control)
    requires WfName(n) && n.word == FLAGS && FlagList(arguments)
    ensures WfControl(c) && PrintControl(c) == [STAR, SP] + PrintName(n) + Spaced(Some(arguments))
  {
    hide PrintName, WfName, WfFlag, Flag, Words, EveryWord, WordsOf;
    var inside := arguments[1..|arguments| - 1];
    var list := if inside == [] then [] else WordsOf(inside);
    if inside != [] {
      WordsRead(inside, Flag, RBRACE);
      forall i | 0 <= i < |list| ensures WfFlag(list[i]) {
        FlagIff(list[i]);
      }
    } else {
      NoWords();
    }
    c := Flags(n, list);
    assert arguments == [LPAREN] + inside + [RPAREN];
    assert [STAR, SP] + PrintName(n) + [SP, LPAREN] + inside + [RPAREN]
        == [STAR, SP] + PrintName(n) + ([SP] + ([LPAREN] + inside + [RPAREN]));
  }

  lemma SearchedRead(n: Name, text: Option<bytes>) returns (c: Control)
    requires WfName(n) && n.word in {SEARCH, ESEARCH} && (text.Some? ==> Flat(text.value))
    ensures WfControl(c) && PrintControl(c) == [STAR, SP] + PrintName(n) + Spaced(text)
  {
    hide PrintName, WfName, Flat, WfPieces, PrintPieces;
    if text.Some? {
      FlatIff(text.value);
      var ps :| WfPieces(ps) && PrintPieces(ps) == text.value;
      c := Searched(n, Some(ps));
    } else {
      c := Searched(n, None);
    }
  }

  lemma StatusRead(name: bytes, text: Option<bytes>) returns (c: Control)
    requires UpperIs(name, OK) || UpperIs(name, NO) || UpperIs(name, BAD) || UpperIs(name, BYE) || UpperIs(name, PREAUTH)
    requires text.Some? ==> StatusText(text.value)
    ensures WfControl(c) && PrintControl(c) == [STAR, SP] + name + Spaced(text)
  {
    hide UpperIs, PrintName, WfName, StatusText, WfText, Capitals;
    WordsAreCapital();
    var word := if UpperIs(name, OK) then OK else if UpperIs(name, NO) then NO else if UpperIs(name, BAD) then BAD
                else if UpperIs(name, BYE) then BYE else PREAUTH;
    var n := NameSpelled(name, word);
    TextIff(text);
    c := Untagged(n, text);
  }

  lemma NamedRead(name: bytes, text: Option<bytes>) returns (c: Control)
    requires NamedLine(name, if text.Some? then text.value else [], text.Some?)
    ensures WfControl(c) && PrintControl(c) == [STAR, SP] + name + Spaced(text)
  {
    hide UpperIs, PrintControl, WfControl, PrintName, WfName, StatusText, FlagList, EveryWord, NoBraces, Flat, Capitals;
    WordsAreCapital();
    if UpperIs(name, OK) || UpperIs(name, NO) || UpperIs(name, BAD) || UpperIs(name, BYE) || UpperIs(name, PREAUTH) {
      c := StatusRead(name, text);
    } else if UpperIs(name, CAPABILITY) {
      var n := NameSpelled(name, CAPABILITY);
      c := CapabilitiesRead(n, text.value);
    } else if UpperIs(name, FLAGS) {
      var n := NameSpelled(name, FLAGS);
      c := FlagsRead(n, text.value);
    } else {
      var n := NameSpelled(name, if UpperIs(name, SEARCH) then SEARCH else ESEARCH);
      c := SearchedRead(n, text);
    }
  }

  lemma LineRead(line: bytes) returns (c: Control)
    requires ControlLine(line)
    ensures WfControl(c) && PrintControl(c) == line
  {
    hide Cut, WfControl, PrintControl, ContinuationLine, TaggedLine, NumberedLine, NamedLine;
    if line != [] && line[0] == PLUS {
      c := ContinuationRead(line);
    } else if !HasPrefix(line, [STAR, SP]) {
      c := TaggedRead(line);
    } else {
      CutJoins(line[2..]);
      var (name, arguments, _) := Cut(line[2..], SP);
      if name != [] && IsDigit(name[0]) {
        c := CountedRead(name, After(line[2..]));
      } else {
        c := NamedRead(name, After(line[2..]));
      }
      assert line == [STAR, SP] + line[2..];
      assert [STAR, SP] + (name + Spaced(After(line[2..]))) == [STAR, SP] + name + Spaced(After(line[2..]));
    }
  }

  /** The line tests accept exactly what the grammar prints. */
  lemma ControlLineIff(line: bytes)
    ensures ControlLine(line) <==> Prints(line)
  {
    hide ControlLine, WfControl, PrintControl;
    if ControlLine(line) {
      var c := LineRead(line);
      assert WfControl(c) && PrintControl(c) == line;
    }
    if Prints(line) {
      var c :| WfControl(c) && PrintControl(c) == line;
      Printed(c);
    }
  }
}
