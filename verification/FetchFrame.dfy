/** The attribute list of a whole FETCH and the theorem that the byte machine,
    started before the opening parenthesis, completes exactly on the printed
    attribute lists. */
module FetchFrame {
  import opened Octets
  import opened QuarantineLexis
  import opened FetchScan
  import opened FetchGrammar

  /** One attribute, with its name as spelled on the wire. */
  datatype Attr =
    | UidAttr(name: bytes, number: bytes)
    | FlagsAttr(name: bytes, body: Elems)
    | StructureAttr(name: bytes, body: Elems)

  function Kind(a: Attr): Item {
    match a
    case UidAttr(_, _) => UidItem
    case FlagsAttr(_, _) => FlagsItem
    case StructureAttr(_, _) => StructureItem
  }

  function KindName(item: Item): bytes {
    match item
    case UidItem => UID
    case FlagsItem => FLAGS
    case StructureItem => BODYSTRUCTURE
  }

  function PrintValue(a: Attr): bytes {
    if a.UidAttr? then a.number else [LPAREN] + Print(a.body) + [RPAREN]
  }

  function PrintAttr(a: Attr): bytes {
    a.name + [SP] + PrintValue(a)
  }

  function PrintAttrs(attrs: seq<Attr>): bytes {
    if attrs == [] then []
    else if |attrs| == 1 then PrintAttr(attrs[0])
    else PrintAttr(attrs[0]) + [SP] + PrintAttrs(attrs[1..])
  }

  /** The text of a FETCH from its opening parenthesis to its CRLF. */
  function PrintList(attrs: seq<Attr>): bytes {
    [LPAREN] + PrintAttrs(attrs) + [RPAREN, CR, LF]
  }

  /** A flat list of flags separated by single spaces. */
  predicate FlagElems(es: Elems, first: bool) {
    match es
    case Empty => true
    case More(gap, head, tail) =>
      gap == !first && head.Word? && WordText(head.text) && Flag(head.text) && FlagElems(tail, false)
  }

  predicate WfAttr(a: Attr) {
    && WordText(a.name) && UpperIs(a.name, KindName(Kind(a)))
    && match a
       case UidAttr(_, number) => WordText(number) && Number(number, false).Some?
       case FlagsAttr(_, body) => FlagElems(body, true)
       case StructureAttr(_, body) => WfElems(body, AfterOpen, 2)
  }

  ghost predicate DistinctKinds(attrs: seq<Attr>) {
    forall i, j :: 0 <= i < j < |attrs| ==> Kind(attrs[i]) != Kind(attrs[j])
  }

  /** At least one attribute, each well formed and of its own kind. */
  ghost predicate WfList(attrs: seq<Attr>) {
    attrs != [] && DistinctKinds(attrs) && forall a :: a in attrs ==> WfAttr(a)
  }

  function AttrTokens(a: Attr): nat {
    if a.UidAttr? then 2 else 3 + Tokens(a.body)
  }

  predicate Seen(s: Scan, item: Item) {
    match item
    case UidItem => s.uidNamed
    case FlagsItem => s.flags
    case StructureItem => s.structure
  }

  function Mark(s: Scan, item: Item): Scan {
    match item
    case UidItem => s.(uidNamed := true)
    case FlagsItem => s.(flags := true)
    case StructureItem => s.(structure := true)
  }

  /** The machine after a name and its space. */
  function AtItsValue(s: Scan, item: Item): Scan {
    Mark(s, item).(lex := Between(AfterSpace), phase := AtValue(item), tokens := s.tokens + 1)
  }

  /** The machine after the value of an attribute. */
  function AfterValue(s: Scan, a: Attr): Scan
    requires WfAttr(a)
  {
    if a.UidAttr? then
      s.(lex := Between(AfterToken), phase := AtDone, tokens := s.tokens + 1, uid := Number(a.number, false).value)
    else
      s.(lex := Between(AfterClose), phase := AtDone, tokens := s.tokens + 2 + Tokens(a.body))
  }

  /** The machine just after one attribute. */
  function Saw(s: Scan, a: Attr): Scan
    requires WfAttr(a)
  {
    AfterValue(AtItsValue(s, Kind(a)), a)
  }

  function SawAll(s: Scan, attrs: seq<Attr>): Scan
    requires forall a :: a in attrs ==> WfAttr(a)
    decreases |attrs|
  {
    if attrs == [] then s else SawAll(Saw(s, attrs[0]), attrs[1..])
  }

  /** Where an attribute may start. */
  ghost predicate AtAttr(s: Scan) {
    && Valid(s) && s.depth == 1 && s.phase == AtName && !s.flagsList
    && (s.lex == Between(AfterOpen) || s.lex == Between(AfterSpace))
  }

  // ---- Names and values ----

  lemma NamedIs(s: Scan, name: bytes, item: Item)
    requires UpperIs(name, KindName(item)) && WordText(name)
    ensures Named(s, name) == if Seen(s, item) then Refused(Protocol) else Next(Mark(s, item).(phase := AtNamed(item)))
    ensures name[0] != BACKSLASH && AllAtomChars(name)
  {
    assert name == [name[0]] + name[1..];
  }

  lemma EndName(s: Scan, name: bytes, item: Item)
    requires Valid(s) && s.depth == 1 && s.phase == AtName && s.lex == InAtom(name)
    requires UpperIs(name, KindName(item)) && WordText(name) && !Seen(s, item)
    ensures ScanByte(s, SP) == Next(Mark(s, item).(lex := Between(AfterSpace), phase := AtValue(item)))
  {
    NamedIs(s.(lex := Between(AfterToken)), name, item);
    hide UpperIs;
  }

  lemma RunName(s: Scan, name: bytes, item: Item, rest: bytes)
    requires AtAttr(s) && WordText(name) && UpperIs(name, KindName(item)) && !Seen(s, item)
    ensures Run(s, name + ([SP] + rest)) == Run(AtItsValue(s, item), rest)
  {
    hide Run, UpperIs;
    NamedIs(s, name, item);
    var w := [SP] + rest;
    assert name + w == [name[0]] + (name[1..] + w);
    var s1 := Counted(s, InAtom([name[0]]));
    assert ScanByte(s, name[0]) == Next(s1);
    RunStep(s, name[0], name[1..] + w);
    hide ScanByte;
    RunAtomChars(s1, [name[0]], name[1..], w);
    assert [name[0]] + name[1..] == name;
    var s2 := Counted(s, InAtom(name));
    EndName(s2, name, item);
    RunStep(s2, SP, rest);
  }

  /** A position where the value of item may start. */
  ghost predicate AtValueOf(s: Scan, item: Item) {
    Valid(s) && s.depth == 1 && s.phase == AtValue(item) && !s.flagsList && s.lex == Between(AfterSpace)
  }

  lemma SettleNumber(s: Scan, number: bytes, w: bytes)
    requires Valid(s) && s.depth == 1 && s.phase == AtValue(UidItem) && s.lex == InAtom(number)
    requires Number(number, false).Some? && w != [] && !AtomChar(w[0])
    ensures Run(s, w) == Run(s.(lex := Between(AfterToken), phase := AtDone, uid := Number(number, false).value), w)
  {
    hide Number;
  }

  lemma RunNumber(s: Scan, number: bytes, rest: bytes)
    requires AtValueOf(s, UidItem) && WordText(number) && Number(number, false).Some?
    requires rest != [] && !AtomChar(rest[0])
    ensures Run(s, number + rest) ==
            Run(Counted(s, Between(AfterToken)).(phase := AtDone, uid := Number(number, false).value), rest)
  {
    hide Run, DecimalValue;
    assert number + rest == [number[0]] + (number[1..] + rest);
    var s1 := Counted(s, InAtom([number[0]]));
    assert ScanByte(s, number[0]) == Next(s1);
    RunStep(s, number[0], number[1..] + rest);
    hide ScanByte, Number;
    RunAtomChars(s1, [number[0]], number[1..], rest);
    assert [number[0]] + number[1..] == number;
    SettleNumber(Counted(s, InAtom(number)), number, rest);
  }

  /** Inside a FLAGS list. */
  ghost predicate InFlags(s: Scan) {
    Valid(s) && s.depth == 2 && s.flagsList
  }

  lemma SettleFlag(s: Scan, text: bytes, w: bytes)
    requires InFlags(s) && s.lex == InAtom(text) && Flag(text)
    requires w != [] && !AtomChar(w[0])
    ensures Run(s, w) == Run(At(s, AfterToken), w)
  {
  }

  lemma RunFlag(s: Scan, text: bytes, rest: bytes)
    requires InFlags(s) && (s.lex == Between(AfterOpen) || s.lex == Between(AfterSpace))
    requires WordText(text) && Flag(text) && rest != [] && !AtomChar(rest[0])
    ensures Run(s, text + rest) == Run(Counted(s, Between(AfterToken)), rest)
  {
    hide Run;
    assert text + rest == [text[0]] + (text[1..] + rest);
    var s1 := Counted(s, InAtom([text[0]]));
    assert ScanByte(s, text[0]) == Next(s1);
    RunStep(s, text[0], text[1..] + rest);
    hide ScanByte;
    RunAtomChars(s1, [text[0]], text[1..], rest);
    assert [text[0]] + text[1..] == text;
    SettleFlag(Counted(s, InAtom(text)), text, rest);
  }

  lemma FlagSteps(s: Scan, previous: Previous)
    requires InFlags(s) && s.lex == Between(previous) && previous != AfterSpace
    ensures ScanByte(s, RPAREN) == Next(Closed(s, 0))
    ensures previous == AfterToken ==> ScanByte(s, SP) == Next(At(s, AfterSpace))
  {
  }

  lemma {:induction false} RunFlags(s: Scan, first: bool, es: Elems, rest: bytes)
    requires InFlags(s) && s.lex == Between(if first then AfterOpen else AfterToken) && FlagElems(es, first)
    ensures Run(s, Print(es) + [RPAREN] + rest) == Run(Closed(s, Tokens(es)), rest)
    decreases es
  {
    hide Run, ScanByte, Flag, WordText, AllAtomChars, Print;
    FlagSteps(s, s.lex.previous);
    match es
    case Empty =>
      PrintEmpty(rest);
      RunStep(s, RPAREN, rest);
    case More(gap, head, tail) =>
      var w := Print(tail) + [RPAREN] + rest;
      PrintMore(gap, head, tail, rest);
      var s1 := s;
      if gap {
        RunStep(s, SP, head.text + w);
        s1 := At(s, AfterSpace);
      } else {
        assert [] + (head.text + w) == head.text + w;
      }
      FlagsNext(tail, rest);
      RunFlag(s1, head.text, w);
      RunFlags(Counted(s1, Between(AfterToken)), false, tail, rest);
  }

  lemma FlagsNext(es: Elems, rest: bytes)
    requires FlagElems(es, false)
    ensures var w := Print(es) + [RPAREN] + rest; w != [] && !AtomChar(w[0])
  {
  }

  lemma ValueOpenStep(s: Scan, item: Item)
    requires AtValueOf(s, item) && item != UidItem
    ensures ScanByte(s, LPAREN) == Open(s.(flagsList := item == FlagsItem))
    ensures Open(s.(flagsList := item == FlagsItem)).Next?
  {
  }

  lemma RunListValue(s: Scan, a: Attr, rest: bytes)
    requires WfAttr(a) && !a.UidAttr? && AtValueOf(s, Kind(a))
    ensures Run(s, PrintValue(a) + rest) == Run(AfterValue(s, a), rest)
  {
    hide Run, ScanByte, Print, Number;
    var w := Print(a.body) + [RPAREN] + rest;
    assert PrintValue(a) + rest == [LPAREN] + w;
    ValueOpenStep(s, Kind(a));
    RunStep(s, LPAREN, w);
    var inner := Open(s.(flagsList := a.FlagsAttr?)).scan;
    if a.FlagsAttr? {
      RunFlags(inner, true, a.body, rest);
    } else {
      RunElems(inner, AfterOpen, a.body, rest);
    }
  }

  /** Reads the value of an attribute whose name is already read. */
  lemma RunValue(s: Scan, a: Attr, rest: bytes)
    requires WfAttr(a) && AtValueOf(s, Kind(a)) && rest != [] && !AtomChar(rest[0])
    ensures Run(s, PrintValue(a) + rest) == Run(AfterValue(s, a), rest)
  {
    hide Run, Number;
    if a.UidAttr? {
      RunNumber(s, a.number, rest);
    } else {
      RunListValue(s, a, rest);
    }
  }

  lemma RunAttr(s: Scan, a: Attr, rest: bytes)
    requires AtAttr(s) && WfAttr(a) && !Seen(s, Kind(a)) && rest != [] && !AtomChar(rest[0])
    ensures Run(s, PrintAttr(a) + rest) == Run(Saw(s, a), rest)
  {
    hide Run, UpperIs, WordText, Number;
    assert PrintAttr(a) + rest == a.name + ([SP] + (PrintValue(a) + rest));
    RunName(s, a.name, Kind(a), PrintValue(a) + rest);
    var s1 := AtItsValue(s, Kind(a));
    RunValue(s1, a, rest);
  }

  /** The machine between attributes, or before the closing parenthesis. */
  ghost predicate Done(s: Scan) {
    && Valid(s) && s.depth == 1 && s.phase == AtDone && !s.flagsList
    && (s.lex == Between(AfterToken) || s.lex == Between(AfterClose))
  }

  function NextAttr(s: Scan): Scan {
    s.(lex := Between(AfterSpace), phase := AtName)
  }

  function Ended(s: Scan): Scan {
    s.(lex := Finished, depth := 0, tokens := s.tokens + 1)
  }

  lemma SawDone(s: Scan, a: Attr)
    requires AtAttr(s) && WfAttr(a)
    ensures Done(Saw(s, a))
  {
    hide WfAttr, Number, Tokens;
  }

  lemma DoneSteps(s: Scan)
    requires Done(s)
    ensures ScanByte(s, SP) == Next(NextAttr(s))
    ensures ScanByte(s, RPAREN) == Next(s.(lex := AtEndCR, depth := 0, tokens := s.tokens + 1))
  {
  }

  lemma RunEnd(s: Scan)
    requires Done(s)
    ensures Run(s, [RPAREN, CR, LF]) == Next(Ended(s))
  {
    hide Run;
    DoneSteps(s);
    assert [RPAREN, CR, LF] == [RPAREN] + ([CR] + ([LF] + []));
    RunStep(s, RPAREN, [CR] + ([LF] + []));
    var s1 := s.(lex := AtEndCR, depth := 0, tokens := s.tokens + 1);
    RunStep(s1, CR, [LF] + []);
    RunStep(s1.(lex := AtEndLF), LF, []);
    RunNothing(Ended(s));
  }

  lemma RunNothing(s: Scan)
    requires Valid(s)
    ensures Run(s, []) == Next(s)
  {
  }

  /** The kinds of attributes are all still to be seen. */
  ghost predicate Fresh(s: Scan, attrs: seq<Attr>) {
    forall a :: a in attrs ==> !Seen(s, Kind(a))
  }

  lemma SawFresh(s: Scan, attrs: seq<Attr>)
    requires WfList(attrs) && Fresh(s, attrs)
    ensures Fresh(NextAttr(Saw(s, attrs[0])), attrs[1..])
    ensures DistinctKinds(attrs[1..])
  {
    hide WfAttr, Number;
    forall a | a in attrs[1..] ensures !Seen(NextAttr(Saw(s, attrs[0])), Kind(a)) {
      assert Kind(a) != Kind(attrs[0]);
    }
  }

  /** The summary a machine keeps does not depend on where it stands. */
  lemma SawAllSkips(s: Scan, t: Scan, attrs: seq<Attr>)
    requires attrs != [] && forall a :: a in attrs ==> WfAttr(a)
    requires t == s.(lex := t.lex, phase := t.phase)
    ensures SawAll(s, attrs) == SawAll(t, attrs)
  {
    hide WfAttr, Number;
    assert Saw(s, attrs[0]) == Saw(t, attrs[0]);
  }

  lemma {:induction false} RunAttrs(s: Scan, attrs: seq<Attr>)
    requires AtAttr(s) && WfList(attrs) && Fresh(s, attrs)
    ensures Run(s, PrintAttrs(attrs) + [RPAREN, CR, LF]) == Next(Ended(SawAll(s, attrs)))
    decreases |attrs|
  {
    hide Run, ScanByte, WfAttr, Saw, PrintAttr, Kind, Seen;
    var end := [RPAREN, CR, LF];
    var a := attrs[0];
    var s1 := Saw(s, a);
    SawDone(s, a);
    if |attrs| == 1 {
      RunAttr(s, a, end);
      RunEnd(s1);
      assert attrs[1..] == [];
    } else {
      var w := PrintAttrs(attrs[1..]) + end;
      assert PrintAttrs(attrs) + end == PrintAttr(a) + ([SP] + w);
      RunAttr(s, a, [SP] + w);
      DoneSteps(s1);
      RunStep(s1, SP, w);
      SawFresh(s, attrs);
      RunAttrs(NextAttr(s1), attrs[1..]);
      SawAllSkips(s1, NextAttr(s1), attrs[1..]);
    }
  }

  /** The machine after its opening parenthesis. */
  function Begun(): Scan {
    START.(lex := Between(AfterOpen), depth := 1, tokens := 1)
  }

  /** Every printed attribute list is read to its end, and leaves this summary. */
  lemma PrintedIsRead(attrs: seq<Attr>)
    requires WfList(attrs)
    ensures Run(START, PrintList(attrs)) == Next(Ended(SawAll(Begun(), attrs)))
  {
    hide Run, WfAttr;
    var w := PrintAttrs(attrs) + [RPAREN, CR, LF];
    assert PrintList(attrs) == [LPAREN] + w;
    RunStep(START, LPAREN, w);
    RunAttrs(Begun(), attrs);
  }

  // ---- Everything read is printed ----

  /** A name ends only at a space, and only when it is new. */
  lemma NameEnds(s: Scan, name: bytes, b: byte) returns (item: Item)
    requires Valid(s) && s.depth == 1 && s.phase == AtName && s.lex == InAtom(name)
    requires !AtomChar(b) && ScanByte(s, b).Next?
    ensures b == SP && UpperIs(name, KindName(item)) && !Seen(s, item)
    ensures ScanByte(s, b) == Next(Mark(s, item).(lex := Between(AfterSpace), phase := AtValue(item)))
  {
    hide UpperIs;
    item := if UpperIs(name, UID) then UidItem else if UpperIs(name, FLAGS) then FlagsItem else StructureItem;
  }

  /** Reads an atom that starts here, up to the octet after it. */
  lemma ExtractWord(s: Scan, w: bytes) returns (text: bytes, rest: bytes)
    requires Valid(s) && Completes(s, w) && w != [] && ScanByte(s, w[0]) == Next(Counted(s, InAtom([w[0]])))
    requires AtomChar(w[0]) || w[0] == BACKSLASH
    ensures w == text + rest && WordText(text) && rest != [] && !AtomChar(rest[0])
    ensures Valid(Counted(s, InAtom(text))) && Completes(Counted(s, InAtom(text)), rest)
  {
    hide Run, ScanByte;
    CompletesStep(s, w);
    var s1 := Counted(s, InAtom([w[0]]));
    var more;
    more, rest := ExtractAtom(s1, [w[0]], w[1..]);
    text := [w[0]] + more;
    RunAtomChars(s1, [w[0]], more, rest);
    assert text[1..] == more;
  }

  lemma NameStep(s: Scan, b: byte)
    requires AtAttr(s) && ScanByte(s, b).Next?
    ensures ScanByte(s, b) == Next(Counted(s, InAtom([b]))) && (AtomChar(b) || b == BACKSLASH)
  {
  }

  lemma ExtractName(s: Scan, w: bytes) returns (name: bytes, item: Item, rest: bytes)
    requires AtAttr(s) && Completes(s, w)
    ensures w == name + ([SP] + rest)
    ensures WordText(name) && UpperIs(name, KindName(item)) && !Seen(s, item)
    ensures AtValueOf(AtItsValue(s, item), item) && Completes(AtItsValue(s, item), rest)
  {
    hide Run, ScanByte, UpperIs, WordText;
    CompletesStep(s, w);
    NameStep(s, w[0]);
    var r1;
    name, r1 := ExtractWord(s, w);
    var s1 := Counted(s, InAtom(name));
    CompletesStep(s1, r1);
    item := NameEnds(s1, name, r1[0]);
    rest := r1[1..];
  }

  lemma ValueStep(s: Scan, item: Item, b: byte)
    requires AtValueOf(s, item) && ScanByte(s, b).Next?
    ensures item != UidItem ==> b == LPAREN
    ensures item == UidItem ==> ScanByte(s, b) == Next(Counted(s, InAtom([b]))) && (AtomChar(b) || b == BACKSLASH)
  {
  }

  lemma NumberEnds(s: Scan, number: bytes, b: byte)
    requires Valid(s) && s.depth == 1 && s.phase == AtValue(UidItem) && s.lex == InAtom(number)
    requires !AtomChar(b) && ScanByte(s, b).Next?
    ensures Number(number, false).Some?
  {
    hide Number;
  }

  lemma ExtractNumber(s: Scan, w: bytes) returns (number: bytes, rest: bytes)
    requires AtValueOf(s, UidItem) && Completes(s, w)
    ensures w == number + rest && WordText(number) && Number(number, false).Some?
    ensures rest != [] && !AtomChar(rest[0])
  {
    hide Run, ScanByte, WordText, Number;
    CompletesStep(s, w);
    ValueStep(s, UidItem, w[0]);
    number, rest := ExtractWord(s, w);
    var s1 := Counted(s, InAtom(number));
    CompletesStep(s1, rest);
    NumberEnds(s1, number, rest[0]);
  }

  lemma FlagsStep(s: Scan, previous: Previous, b: byte)
    requires InFlags(s) && s.lex == Between(previous) && ScanByte(s, b).Next?
    requires previous != AfterClose
    ensures b == RPAREN ==> previous != AfterSpace
    ensures b == SP ==> previous == AfterToken && ScanByte(s, b) == Next(At(s, AfterSpace))
    ensures b != RPAREN && b != SP ==>
              && ScanByte(s, b) == Next(Counted(s, InAtom([b]))) && (AtomChar(b) || b == BACKSLASH)
              && previous != AfterToken
  {
  }

  lemma FlagEnds(s: Scan, text: bytes, b: byte)
    requires InFlags(s) && s.lex == InAtom(text) && !AtomChar(b) && ScanByte(s, b).Next?
    ensures Flag(text)
  {
    hide Flag;
  }

  lemma ExtractFlag(s: Scan, w: bytes) returns (text: bytes, rest: bytes)
    requires InFlags(s) && (s.lex == Between(AfterOpen) || s.lex == Between(AfterSpace)) && Completes(s, w)
    requires w != [] && w[0] != RPAREN
    ensures w == text + rest && WordText(text) && Flag(text) && |rest| < |w|
    ensures Completes(Counted(s, Between(AfterToken)), rest)
  {
    hide Run, ScanByte, Flag;
    CompletesStep(s, w);
    FlagsStep(s, s.lex.previous, w[0]);
    text, rest := ExtractWord(s, w);
    var s1 := Counted(s, InAtom(text));
    CompletesStep(s1, rest);
    FlagEnds(s1, text, rest[0]);
    RunFlag(s, text, rest);
  }

  lemma {:induction false} ExtractFlags(s: Scan, first: bool, w: bytes) returns (es: Elems, rest: bytes)
    requires InFlags(s) && s.lex == Between(if first then AfterOpen else AfterToken) && Completes(s, w)
    ensures w == Print(es) + [RPAREN] + rest && FlagElems(es, first)
    decreases |w|
  {
    hide Run, ScanByte, Flag, WordText, Print;
    CompletesStep(s, w);
    FlagsStep(s, s.lex.previous, w[0]);
    if w[0] == RPAREN {
      es, rest := Empty, w[1..];
      PrintEmpty(rest);
    } else {
      var s1, r0 := s, w;
      if !first {
        s1, r0 := At(s, AfterSpace), w[1..];
        CompletesStep(s1, r0);
        FlagsStep(s1, AfterSpace, r0[0]);
      }
      var text, r1 := ExtractFlag(s1, r0);
      var tail;
      tail, rest := ExtractFlags(Counted(s1, Between(AfterToken)), false, r1);
      es := More(!first, Word(text), tail);
      assert w == (if first then [] else [SP]) + r0;
      PrintMore(!first, Word(text), tail, rest);
    }
  }

  lemma ExtractListValue(s: Scan, item: Item, w: bytes) returns (body: Elems, rest: bytes)
    requires AtValueOf(s, item) && item != UidItem && Completes(s, w)
    ensures w == [LPAREN] + Print(body) + [RPAREN] + rest
    ensures if item == FlagsItem then FlagElems(body, true) else WfElems(body, AfterOpen, 2)
  {
    hide Run, ScanByte, FlagElems, WfElems, Print;
    CompletesStep(s, w);
    ValueStep(s, item, w[0]);
    ValueOpenStep(s, item);
    var inner := Open(s.(flagsList := item == FlagsItem)).scan;
    if item == FlagsItem {
      body, rest := ExtractFlags(inner, true, w[1..]);
    } else {
      body, rest := ExtractElems(inner, AfterOpen, w[1..]);
    }
    assert w == [LPAREN] + w[1..];
  }

  lemma DoneNext(s: Scan, w: bytes)
    requires Done(s) && Completes(s, w)
    ensures w == [RPAREN, CR, LF] || (w != [] && w[0] == SP && Completes(NextAttr(s), w[1..]) && AtAttr(NextAttr(s)))
  {
    hide Run;
    CompletesStep(s, w);
    if w[0] != SP {
      var s1 := s.(lex := AtEndCR, depth := 0, tokens := s.tokens + 1);
      CompletesStep(s1, w[1..]);
      var s2 := s1.(lex := AtEndLF);
      CompletesStep(s2, w[2..]);
      FinishedStops(s2.(lex := Finished), w[3..]);
      assert w == [RPAREN, CR, LF] + w[3..];
    }
  }

  lemma FinishedStops(s: Scan, w: bytes)
    requires Valid(s) && s.lex.Finished? && Completes(s, w)
    ensures w == []
  {
  }

  lemma ExtractValue(s: Scan, name: bytes, item: Item, w: bytes) returns (a: Attr, rest: bytes)
    requires AtValueOf(s, item) && Completes(s, w) && WordText(name) && UpperIs(name, KindName(item))
    ensures WfAttr(a) && a.name == name && Kind(a) == item && w == PrintValue(a) + rest
    ensures Completes(AfterValue(s, a), rest)
  {
    hide Run, ScanByte, UpperIs, WordText, Number, FlagElems, WfElems, Print;
    if item == UidItem {
      var number;
      number, rest := ExtractNumber(s, w);
      a := UidAttr(name, number);
      RunNumber(s, number, rest);
    } else {
      var body;
      body, rest := ExtractListValue(s, item, w);
      a := if item == FlagsItem then FlagsAttr(name, body) else StructureAttr(name, body);
      RunListValue(s, a, rest);
    }
  }

  lemma ExtractAttr(s: Scan, w: bytes) returns (a: Attr, rest: bytes)
    requires AtAttr(s) && Completes(s, w)
    ensures w == PrintAttr(a) + rest && WfAttr(a) && !Seen(s, Kind(a)) && |rest| < |w|
    ensures Completes(Saw(s, a), rest)
  {
    hide Run, ScanByte, UpperIs, WordText, WfAttr, PrintValue, AfterValue;
    var name, item, r1 := ExtractName(s, w);
    a, rest := ExtractValue(AtItsValue(s, item), name, item, r1);
    assert w == name + [SP] + (PrintValue(a) + rest);
  }

  lemma {:induction false} ExtractAttrs(s: Scan, w: bytes) returns (attrs: seq<Attr>)
    requires AtAttr(s) && Completes(s, w)
    ensures w == PrintAttrs(attrs) + [RPAREN, CR, LF] && WfList(attrs) && Fresh(s, attrs)
    decreases |w|
  {
    hide Run, ScanByte, PrintAttr, WfAttr, Kind, Saw;
    var a, rest := ExtractAttr(s, w);
    SawDone(s, a);
    DoneNext(Saw(s, a), rest);
    if rest == [RPAREN, CR, LF] {
      attrs := [a];
    } else {
      var tail := ExtractAttrs(NextAttr(Saw(s, a)), rest[1..]);
      attrs := [a] + tail;
      StillFresh(s, a, tail);
      assert attrs[1..] == tail;
      assert rest == [SP] + rest[1..];
    }
  }

  lemma StillFresh(s: Scan, a: Attr, tail: seq<Attr>)
    requires WfAttr(a) && Fresh(NextAttr(Saw(s, a)), tail) && !Seen(s, Kind(a)) && DistinctKinds(tail)
    ensures Fresh(s, [a] + tail) && DistinctKinds([a] + tail)
  {
    hide WfAttr, Number;
    forall b | b in tail ensures !Seen(s, Kind(b)) && Kind(b) != Kind(a) {
      assert !Seen(NextAttr(Saw(s, a)), Kind(b));
    }
  }

  /** The machine completes exactly on the printed attribute lists. */
  lemma ReadIffPrinted(w: bytes)
    ensures Completes(START, w) <==> exists attrs :: WfList(attrs) && w == PrintList(attrs)
  {
    hide Run, ScanByte, WfList, SawAll;
    if Completes(START, w) {
      var attrs := ReadIsPrinted(w);
    }
    forall attrs | WfList(attrs) && w == PrintList(attrs) ensures Completes(START, w) {
      PrintedIsRead(attrs);
    }
  }

  /** The attribute list that a completed run has read. */
  lemma ReadIsPrinted(w: bytes) returns (attrs: seq<Attr>)
    requires Completes(START, w)
    ensures WfList(attrs) && w == PrintList(attrs)
    ensures Run(START, w) == Next(Ended(SawAll(Begun(), attrs)))
  {
    hide Run, WfAttr;
    CompletesStep(START, w);
    attrs := ExtractAttrs(Begun(), w[1..]);
    assert w == PrintList(attrs);
    PrintedIsRead(attrs);
  }
}
