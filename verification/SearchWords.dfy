/** Exactly the SEARCH lines that are read as numbers: decimal words with white
    space between them, and behind them one modification sequence or none
    (bridge/imapclient.go:1590-1628). */
module SearchWords {
  import opened Octets
  import opened Wrappers
  import opened QuarantineLexis
  import opened SearchWire
  import opened SearchSoundness
  import opened SearchPrinter
  import ControlGrammar

  // ---- Words and white space ----

  datatype Bit = Gap(white: bytes) | Word(digits: bytes)

  predicate WfBit(b: Bit) {
    match b
    case Gap(white) => white != [] && SpaceAt(white) == |white|
    case Word(digits) => digits != [] && AllDigits(digits) && DecimalValue(digits) <= MAX_UINT32
  }

  /** No two words stand next to each other. */
  ghost predicate WfBits(bits: seq<Bit>) {
    && (forall i :: 0 <= i < |bits| ==> WfBit(bits[i]))
    && forall i :: 0 < i < |bits| ==> bits[i - 1].Gap? || bits[i].Gap?
  }

  function BitText(b: Bit): bytes {
    if b.Gap? then b.white else b.digits
  }

  function BitsText(bits: seq<Bit>): bytes {
    if bits == [] then [] else BitText(bits[0]) + BitsText(bits[1..])
  }

  /** The words among the bits. */
  function WordsAmong(bits: seq<Bit>): seq<bytes> {
    if bits == [] then [] else (if bits[0].Word? then [bits[0].digits] else []) + WordsAmong(bits[1..])
  }

  lemma SpacePrefix(s: bytes, rest: bytes)
    requires s != [] && SpaceAt(s) == |s|
    ensures SpaceAt(s + rest) == |s|
  {
    var t := s + rest;
    assert forall i :: 0 <= i < |s| ==> t[i] == s[i];
  }

  lemma SpaceCut(s: bytes)
    requires SpaceAt(s) > 0
    ensures var k := SpaceAt(s); SpaceAt(s[..k]) == k && s == s[..k] + s[k..]
  {
    var k := SpaceAt(s);
    assert forall i :: 0 <= i < k ==> s[..k][i] == s[i];
  }

  lemma BitsMore(first: Bit, bits: seq<Bit>)
    requires WfBit(first) && WfBits(bits) && (bits == [] || first.Gap? || bits[0].Gap?)
    ensures WfBits([first] + bits) && BitsText([first] + bits) == BitText(first) + BitsText(bits)
    ensures WordsAmong([first] + bits) == (if first.Word? then [first.digits] else []) + WordsAmong(bits)
  {
    hide WfBit;
    var all := [first] + bits;
    assert all[1..] == bits;
    assert forall i :: 0 < i < |all| ==> all[i] == bits[i - 1];
  }

  lemma NoBits()
    ensures WfBits([]) && BitsText([]) == [] && WordsAmong([]) == []
  {
  }

  lemma AllParseSplit(first: seq<bytes>, later: seq<bytes>)
    requires AllParse(first + later)
    ensures AllParse(first) && AllParse(later)
  {
    hide ParseUint;
    var all := first + later;
    assert forall i :: 0 <= i < |first| ==> all[i] == first[i];
    assert forall i :: 0 <= i < |later| ==> all[|first| + i] == later[i];
  }

  lemma ParsedWord(word: bytes)
    requires AllParse([word])
    ensures WfBit(Word(word))
  {
    assert [word][0] == word;
  }

  /** A word and what follows it. */
  lemma WordFirst(word: bytes, bits: seq<Bit>) returns (all: seq<Bit>)
    requires (word != [] ==> WfBit(Word(word))) && WfBits(bits) && (bits == [] || bits[0].Gap?)
    ensures WfBits(all) && BitsText(all) == word + BitsText(bits)
    ensures WordsAmong(all) == (if word == [] then [] else [word]) + WordsAmong(bits)
  {
    if word == [] {
      all := bits;
      assert word + BitsText(bits) == BitsText(bits) && [] + WordsAmong(bits) == WordsAmong(bits);
    } else {
      all := [Word(word)] + bits;
      BitsMore(Word(word), bits);
    }
  }

  /** Text whose fields are all numbers is such words and white space. */
  lemma {:induction false} BitsFound(s: bytes, word: bytes) returns (bits: seq<Bit>)
    requires AllParse(Fields(s, word))
    ensures WfBits(bits) && BitsText(bits) == word + s && WordsAmong(bits) == Fields(s, word)
    decreases |s|
  {
    hide SpaceAt, ParseUint, AllParse, WfBits, WordsAmong, BitsText;
    var done := if word == [] then [] else [word];
    NoBits();
    if s == [] {
      if word != [] {
        ParsedWord(word);
      }
      bits := WordFirst(word, []);
      assert done + [] == done && word + s == word + [];
    } else if SpaceAt(s) > 0 {
      var k := SpaceAt(s);
      AllParseSplit(done, Fields(s[k..], []));
      if word != [] {
        ParsedWord(word);
      }
      var later := BitsFound(s[k..], []);
      SpaceCut(s);
      var gap := Gap(s[..k]);
      BitsMore(gap, later);
      bits := WordFirst(word, [gap] + later);
      assert [] + s[k..] == s[k..] && [] + WordsAmong(later) == WordsAmong(later);
    } else {
      bits := BitsFound(s[1..], word + [s[0]]);
      assert word + [s[0]] + s[1..] == word + s;
    }
  }

  lemma BitsTail(bits: seq<Bit>)
    requires bits != [] && WfBits(bits)
    ensures WfBit(bits[0]) && WfBits(bits[1..]) && (bits[0].Word? && |bits| > 1 ==> bits[1].Gap?)
  {
    hide WfBit;
    var tail := bits[1..];
    assert forall i :: 0 <= i < |tail| ==> tail[i] == bits[i + 1];
  }

  /** The fields of such a text are its words. */
  lemma {:induction false} BitsRead(bits: seq<Bit>, word: bytes)
    requires WfBits(bits) && (word != [] ==> bits == [] || bits[0].Gap?)
    ensures Fields(BitsText(bits), word) == (if word == [] then [] else [word]) + WordsAmong(bits)
    decreases |bits|
  {
    hide SpaceAt, WfBits, Fields, DecimalValue;
    if bits == [] {
      FieldsEnd(word);
    } else {
      BitsTail(bits);
      var first, later := bits[0], bits[1..];
      match first
      case Gap(white) =>
        FieldsGap(white, BitsText(later), word);
        BitsRead(later, []);
        assert [] + WordsAmong(later) == WordsAmong(later) && [] + ([] + WordsAmong(later)) == WordsAmong(later);
      case Word(digits) =>
        WordFields(digits, BitsText(later), []);
        assert [] + digits == digits;
        BitsRead(later, digits);
        assert [] + ([digits] + WordsAmong(later)) == [digits] + WordsAmong(later);
    }
  }

  lemma FieldsEnd(word: bytes)
    ensures Fields([], word) == if word == [] then [] else [word]
  {
  }

  lemma FieldsGap(white: bytes, rest: bytes, word: bytes)
    requires WfBit(Gap(white))
    ensures Fields(white + rest, word) == (if word == [] then [] else [word]) + Fields(rest, [])
  {
    hide SpaceAt;
    SpacePrefix(white, rest);
    assert (white + rest)[|white|..] == rest;
  }

  lemma {:induction false} WordsParse(bits: seq<Bit>)
    requires WfBits(bits)
    ensures AllParse(WordsAmong(bits))
    decreases |bits|
  {
    hide WfBits;
    if bits != [] {
      BitsTail(bits);
      WordsParse(bits[1..]);
    }
  }

  lemma {:induction false} BitsOctets(bits: seq<Bit>)
    requires WfBits(bits)
    ensures LPAREN !in BitsText(bits)
    decreases |bits|
  {
    hide WfBits, DecimalValue;
    if bits != [] {
      BitsTail(bits);
      BitsOctets(bits[1..]);
      if bits[0].Gap? {
        GapOctets(bits[0].white);
      }
    }
  }

  lemma GapOctets(white: bytes)
    requires SpaceAt(white) == |white|
    ensures LPAREN !in white
  {
  }

  // ---- The group ----

  /** Without a K or an I in the word, folding and upper-casing agree. */
  lemma {:induction false} FoldsLikeUpper(name: bytes, word: bytes)
    requires ControlGrammar.Capitals(word) && 0x4b !in word && 0x49 !in word
    ensures FoldIs(name, word) <==> UpperIs(name, word)
    decreases |name|
  {
    if word != [] {
      if |name| >= 1 {
        FoldsLikeUpper(name[1..], word[1..]);
      }
      if |name| >= 2 {
        FoldsLikeUpper(name[2..], word[1..]);
      }
    }
  }

  /** A group is accepted exactly when it is a printed modification sequence. */
  lemma GroupIff(group: bytes)
    ensures ModSeqGroup(group) <==> exists g :: WfModSeq(Some(g)) && Group(g) == group
  {
    hide ModSeqGroup, Group, WfModSeq;
    if ModSeqGroup(group) {
      var g := GroupFound(group);
    }
    if g :| WfModSeq(Some(g)) && Group(g) == group {
      GroupRead(g);
    }
  }

  lemma GroupFound(group: bytes) returns (g: ModSeq)
    requires ModSeqGroup(group)
    ensures WfModSeq(Some(g)) && Group(g) == group
  {
    hide FoldIs, UpperIs, DecimalValue, ControlGrammar.WfName, ControlGrammar.PrintName, Cut;
    var core := TrimSuffix(group, SP);
    var inside := core[1..|core| - 1];
    assert TrimPrefix(core, LPAREN) == inside + [RPAREN];
    assert TrimSuffix(inside + [RPAREN], RPAREN) == inside;
    var (name, value, ok) := Cut(inside, SP);
    ControlGrammar.CutJoins(inside);
    ModSeqWord();
    FoldsLikeUpper(name, MODSEQ);
    var n := ControlGrammar.NameSpelled(name, MODSEQ);
    g := ModSeq(false, n, value, core != group);
    assert inside == name + ([SP] + value);
    assert core == [LPAREN] + (name + [SP] + value) + [RPAREN];
    TrimmedBack(group);
  }

  lemma TrimmedBack(s: bytes)
    ensures s == TrimSuffix(s, SP) + Blank(TrimSuffix(s, SP) != s)
  {
  }

  lemma ModSeqWord()
    ensures ControlGrammar.Capitals(MODSEQ) && 0x4b !in MODSEQ && 0x49 !in MODSEQ && MODSEQ != []
  {
  }

  // ---- The line ----

  /** What follows the name on a line that reads as these words. */
  ghost predicate ReadsAs(text: bytes, bits: seq<Bit>, g: Option<ModSeq>) {
    WfBits(bits) && WfModSeq(g) && text == BitsText(bits) + if g.None? then [] else Group(g.value)
  }

  /** A SEARCH line reads as numbers exactly when it is decimal words of 32 bits
      apart from each other, and one modification sequence or none behind them;
      its numbers are those of the words. */
  lemma ReadsAsNumbersIff(text: bytes)
    ensures ReadsAsNumbers(text) <==> exists bits, g :: ReadsAs(text, bits, g)
    ensures forall bits, g :: ReadsAs(text, bits, g) ==>
              AllParse(WordsAmong(bits)) && ReadsAsNumbers(text) && SearchNumbers(text) == Numbers(WordsAmong(bits))
  {
    hide ReadsAs, WfBits, Fields, AllParse, Numbers, GroupOk, BeforeGroup;
    if ReadsAsNumbers(text) {
      var bits, g := LineFound(text);
    }
    forall bits, g | ReadsAs(text, bits, g)
      ensures AllParse(WordsAmong(bits)) && ReadsAsNumbers(text) && SearchNumbers(text) == Numbers(WordsAmong(bits))
    {
      LineReads(text, bits, g);
    }
  }

  lemma LineReads(text: bytes, bits: seq<Bit>, g: Option<ModSeq>)
    requires ReadsAs(text, bits, g)
    ensures GroupOk(text) && Fields(BeforeGroup(text), []) == WordsAmong(bits) && AllParse(WordsAmong(bits))
  {
    hide WfBits, Fields, AllParse, WfModSeq, Group, ModSeqGroup;
    BitsOctets(bits);
    BitsRead(bits, []);
    WordsParse(bits);
    assert [] + WordsAmong(bits) == WordsAmong(bits);
    if g.Some? {
      GroupStarts(g.value);
      GroupRead(g.value);
      CutAtGroup(BitsText(bits), Group(g.value));
    } else {
      CutAtGroup(BitsText(bits), []);
    }
  }

  lemma LineFound(text: bytes) returns (bits: seq<Bit>, g: Option<ModSeq>)
    requires ReadsAsNumbers(text)
    ensures ReadsAs(text, bits, g)
  {
    hide WfBits, Fields, AllParse, WfModSeq, Group, ModSeqGroup;
    var before := BeforeGroup(text);
    bits := BitsFound(before, []);
    assert [] + before == before;
    var k := Find(text, LPAREN);
    assert text == text[..k] + text[k..];
    if k < |text| {
      var m := GroupFound(text[k..]);
      g := Some(m);
    } else {
      g := None;
      NoGroup();
      assert text[k..] == [];
    }
  }

  lemma NoGroup()
    ensures WfModSeq(None)
  {
  }
}
