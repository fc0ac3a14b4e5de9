/** The fixture's printer against the quarantine: every valid descriptor tree
    renders to a text of the FETCH grammar, and the FETCH line that carries it
    is released byte for byte (internal/testkit/bodystructure.go:111-311,
    404-459 with bridge/structure_quarantine.go). */
module StructureRelease {
  import opened Octets
  import opened Sequences
  import opened Wrappers
  import opened QuarantineLexis
  import opened FetchScan
  import opened FetchGrammar
  import opened FetchFrame
  import opened QuarantineMachine
  import opened QuarantineRuns
  import opened QuarantineExact
  import opened BodyStructure
  import Utf8

  // ---- The syntax tree of a rendered part ----

  function StringElem(value: bytes): Elem {
    if Printable(value) then Quoted(Escape(value)) else Lit(Decimal(|value|), value)
  }

  function ParamElems(params: seq<Param>, first: bool): Elems {
    if params == [] then Empty
    else More(!first, StringElem(params[0].name),
           More(true, StringElem(params[0].value), ParamElems(params[1..], false)))
  }

  function ParamsElem(params: seq<Param>): Elem {
    if params == [] then Word(NIL) else Group(ParamElems(params, true))
  }

  function DispositionElem(disposition: Option<Disposition>): Elem {
    match disposition
    case None => Word(NIL)
    case Some(d) => Group(More(false, StringElem(d.value), More(true, ParamsElem(d.params), Empty)))
  }

  function NilNil(): Elems {
    More(true, Word(NIL), More(true, Word(NIL), Empty))
  }

  function LeafEnd(part: BodyPart): Elems {
    More(true, Word(NIL), More(true, DispositionElem(part.disposition), NilNil()))
  }

  function LeafNumbers(part: BodyPart): Elems {
    More(true, Word(Decimal(part.size)),
      if part.kind.TextPart? then More(true, Word(Decimal(part.lines)), LeafEnd(part)) else LeafEnd(part))
  }

  function LeafElems(part: BodyPart): Elems {
    More(false, StringElem(part.mediaType),
      More(true, StringElem(part.subtype),
        More(true, ParamsElem(part.params),
          More(true, Word(NIL), More(true, Word(NIL),
            More(true, StringElem(Encoding(part)), LeafNumbers(part)))))))
  }

  function ContainerEnd(part: BodyPart): Elems {
    More(true, StringElem(part.subtype),
      More(true, ParamsElem(part.params), More(true, DispositionElem(part.disposition), NilNil())))
  }

  /** The list of a part, without its own parentheses. */
  function Body(part: BodyPart): Elems
    decreases part, 1
  {
    if part.kind.MultipartPart? then Children(part.children, ContainerEnd(part)) else LeafElems(part)
  }

  function Children(parts: seq<BodyPart>, tail: Elems): Elems
    decreases parts, 0
  {
    if parts == [] then tail else More(false, Group(Body(parts[0])), Children(parts[1..], tail))
  }

  // ---- It prints to the rendered text ----

  lemma StringPrints(value: bytes)
    ensures PrintElem(StringElem(value)) == RenderString(value)
  {
    hide Escape, Decimal;
  }

  lemma {:induction false} ParamListPrints(params: seq<Param>, first: bool)
    ensures Print(ParamElems(params, first)) == RenderParamList(params, first)
    decreases |params|
  {
    hide RenderString, StringElem, PrintElem;
    if params != [] {
      StringPrints(params[0].name);
      StringPrints(params[0].value);
      ParamListPrints(params[1..], false);
      var rest := ParamElems(params[1..], false);
      PrintMore(true, StringElem(params[0].value), rest, []);
      PrintMore(!first, StringElem(params[0].name), More(true, StringElem(params[0].value), rest), []);
    }
  }

  lemma ParamsPrint(params: seq<Param>)
    ensures PrintElem(ParamsElem(params)) == RenderParams(params)
  {
    hide RenderParamList, ParamElems, Print;
    ParamListPrints(params, true);
  }

  lemma DispositionPrints(disposition: Option<Disposition>)
    ensures PrintElem(DispositionElem(disposition)) == RenderDisposition(disposition)
  {
    hide RenderString, RenderParams, StringElem, ParamsElem, Print;
    match disposition
    case None =>
    case Some(d) =>
      StringPrints(d.value);
      ParamsPrint(d.params);
      PrintEmpty([]);
      PrintMore(true, ParamsElem(d.params), Empty, []);
      PrintMore(false, StringElem(d.value), More(true, ParamsElem(d.params), Empty), []);
  }

  lemma NilNilPrints()
    ensures Print(NilNil()) + [RPAREN] == NIL_NIL_END
  {
  }

  /** One more spaced element before an already printed tail. */
  lemma SpacedPrints(head: Elem, text: bytes, tail: Elems, rest: bytes)
    requires PrintElem(head) == text && Print(tail) + [RPAREN] == rest
    ensures Print(More(true, head, tail)) + [RPAREN] == [SP] + text + rest
  {
    PrintMore(true, head, tail, []);
  }

  lemma LeafEndPrints(part: BodyPart)
    ensures Print(LeafEnd(part)) + [RPAREN] == NIL_ONCE + RenderDisposition(part.disposition) + NIL_NIL_END
  {
    hide RenderDisposition, DispositionElem, Print;
    NilNilPrints();
    DispositionPrints(part.disposition);
    var d := RenderDisposition(part.disposition);
    SpacedPrints(DispositionElem(part.disposition), d, NilNil(), NIL_NIL_END);
    SpacedPrints(Word(NIL), NIL, More(true, DispositionElem(part.disposition), NilNil()), [SP] + d + NIL_NIL_END);
    assert [SP] + NIL + ([SP] + d + NIL_NIL_END) == NIL_ONCE + d + NIL_NIL_END;
  }

  lemma LeafNumbersPrint(part: BodyPart)
    ensures Print(LeafNumbers(part)) + [RPAREN] ==
            ([SP] + Decimal(part.size)) + RenderLines(part) + (NIL_ONCE + RenderDisposition(part.disposition) + NIL_NIL_END)
  {
    hide RenderDisposition, DispositionElem, Print, LeafEnd, Decimal;
    LeafEndPrints(part);
    var end := NIL_ONCE + RenderDisposition(part.disposition) + NIL_NIL_END;
    if part.kind.TextPart? {
      SpacedPrints(Word(Decimal(part.lines)), Decimal(part.lines), LeafEnd(part), end);
      SpacedPrints(Word(Decimal(part.size)), Decimal(part.size), More(true, Word(Decimal(part.lines)), LeafEnd(part)),
                   [SP] + Decimal(part.lines) + end);
    } else {
      SpacedPrints(Word(Decimal(part.size)), Decimal(part.size), LeafEnd(part), end);
    }
  }

  lemma LeafPrints(part: BodyPart)
    requires !part.kind.MultipartPart?
    ensures [LPAREN] + Print(LeafElems(part)) + [RPAREN] == Render(part)
  {
    hide RenderDisposition, Print, LeafNumbers, RenderString, StringElem, RenderParams, ParamsElem, RenderLines, Decimal;
    LeafNumbersPrint(part);
    var e0 := ([SP] + Decimal(part.size)) + RenderLines(part) + (NIL_ONCE + RenderDisposition(part.disposition) + NIL_NIL_END);
    StringPrints(Encoding(part));
    var t1 := More(true, StringElem(Encoding(part)), LeafNumbers(part));
    var e1 := [SP] + RenderString(Encoding(part)) + e0;
    SpacedPrints(StringElem(Encoding(part)), RenderString(Encoding(part)), LeafNumbers(part), e0);
    SpacedPrints(Word(NIL), NIL, t1, e1);
    var t2 := More(true, Word(NIL), t1);
    SpacedPrints(Word(NIL), NIL, t2, [SP] + NIL + e1);
    var t3 := More(true, Word(NIL), t2);
    var e3 := [SP] + NIL + ([SP] + NIL + e1);
    assert e3 == NIL_NIL + RenderString(Encoding(part)) + e0;
    ParamsPrint(part.params);
    SpacedPrints(ParamsElem(part.params), RenderParams(part.params), t3, e3);
    var t4 := More(true, ParamsElem(part.params), t3);
    var e4 := [SP] + RenderParams(part.params) + e3;
    StringPrints(part.subtype);
    SpacedPrints(StringElem(part.subtype), RenderString(part.subtype), t4, e4);
    StringPrints(part.mediaType);
    PrintMore(false, StringElem(part.mediaType), More(true, StringElem(part.subtype), t4), []);
    LeafPieces([LPAREN] + RenderString(part.mediaType), RenderString(part.subtype), RenderParams(part.params),
               RenderString(Encoding(part)), [SP] + Decimal(part.size), RenderLines(part), RenderDisposition(part.disposition));
  }

  lemma LeafPieces(a: bytes, b: bytes, c: bytes, e: bytes, n: bytes, l: bytes, d: bytes)
    ensures a + ([SP] + b + ([SP] + c + (NIL_NIL + e + (n + l + (NIL_ONCE + d + NIL_NIL_END))))) ==
            a + [SP] + b + [SP] + c + NIL_NIL + e + n + l + NIL_ONCE + d + NIL_NIL_END
  {
    hide *;
    var x, y := a + [SP] + b + [SP] + c, NIL_ONCE + d + NIL_NIL_END;
    assert n + l + y + [] == n + l + y;
    FourPieces(a, b, c, NIL_NIL + e + (n + l + y));
    FourMore(x, NIL_NIL, e, n, l, y);
    FourMore(x + NIL_NIL + e + n + l, NIL_ONCE, d, NIL_NIL_END, [], []);
    assert x + NIL_NIL + e + n + l + y == x + NIL_NIL + e + n + l + (NIL_ONCE + d + (NIL_NIL_END + [] + []));
  }

  lemma FourPieces(a: bytes, b: bytes, c: bytes, t: bytes)
    ensures a + ([SP] + b + ([SP] + c + t)) == a + [SP] + b + [SP] + c + t
  {
  }

  lemma FourMore(x: bytes, p: bytes, q: bytes, r: bytes, s: bytes, y: bytes)
    ensures x + (p + q + (r + s + y)) == x + p + q + r + s + y
  {
  }

  lemma ContainerEndPrints(part: BodyPart)
    ensures Print(ContainerEnd(part)) + [RPAREN] ==
            [SP] + RenderString(part.subtype) + ([SP] + RenderParams(part.params)
            + ([SP] + RenderDisposition(part.disposition) + NIL_NIL_END))
  {
    hide RenderDisposition, DispositionElem, Print, RenderString, StringElem, RenderParams, ParamsElem;
    NilNilPrints();
    DispositionPrints(part.disposition);
    SpacedPrints(DispositionElem(part.disposition), RenderDisposition(part.disposition), NilNil(), NIL_NIL_END);
    var t1 := More(true, DispositionElem(part.disposition), NilNil());
    var e1 := [SP] + RenderDisposition(part.disposition) + NIL_NIL_END;
    ParamsPrint(part.params);
    SpacedPrints(ParamsElem(part.params), RenderParams(part.params), t1, e1);
    StringPrints(part.subtype);
    SpacedPrints(StringElem(part.subtype), RenderString(part.subtype), More(true, ParamsElem(part.params), t1),
                 [SP] + RenderParams(part.params) + e1);
  }

  /** A part's tree prints exactly its rendered text. */
  lemma {:induction false} BodyPrints(part: BodyPart)
    ensures PrintElem(Group(Body(part))) == Render(part)
    decreases part, 1
  {
    hide Print, LeafElems, ContainerEnd, RenderString, RenderParams, RenderDisposition;
    if part.kind.MultipartPart? {
      ContainerEndPrints(part);
      ChildrenPrint(part.children, ContainerEnd(part));
      var all, sub, par, dis := RenderAll(part.children), RenderString(part.subtype), RenderParams(part.params),
        RenderDisposition(part.disposition);
      ContainerPieces(all, sub, par, dis, Print(ContainerEnd(part)));
    } else {
      LeafPrints(part);
    }
  }

  lemma ContainerPieces(all: bytes, sub: bytes, par: bytes, dis: bytes, end: bytes)
    requires end + [RPAREN] == [SP] + sub + ([SP] + par + ([SP] + dis + NIL_NIL_END))
    ensures [LPAREN] + (all + end) + [RPAREN] == [LPAREN] + all + [SP] + sub + [SP] + par + [SP] + dis + NIL_NIL_END
  {
    assert [LPAREN] + (all + end) + [RPAREN] == [LPAREN] + all + (end + [RPAREN]);
  }

  lemma {:induction false} ChildrenPrint(parts: seq<BodyPart>, tail: Elems)
    ensures Print(Children(parts, tail)) == RenderAll(parts) + Print(tail)
    decreases parts, 0
  {
    hide Print, PrintElem, Body, Render;
    if parts != [] {
      BodyPrints(parts[0]);
      ChildrenPrint(parts[1..], tail);
      PrintMore(false, Group(Body(parts[0])), Children(parts[1..], tail), []);
      Assoc(Render(parts[0]), RenderAll(parts[1..]), Print(tail));
    } else {
      assert [] + Print(tail) == Print(tail);
    }
  }

  // ---- It is well formed ----

  lemma {:induction false} EscapeQuoted(value: bytes)
    requires Printable(value)
    ensures QuotedRaw(Escape(value))
    decreases |value|
  {
    if value != [] {
      EscapeQuoted(value[1..]);
      var rest := Escape(value[1..]);
      if value[0] == BACKSLASH || value[0] == QUOTE {
        assert Escape(value)[2..] == rest;
      } else {
        assert Escape(value)[1..] == rest;
      }
    }
  }

  lemma StringWf(value: bytes, depth: nat)
    requires |value| <= MAX_VALUE
    ensures WfElem(StringElem(value), depth)
  {
    hide Escape, Decimal, DecimalValue;
    if Printable(value) {
      EscapeQuoted(value);
    } else {
      DecimalRoundTrip(|value|);
      Uint32Length(|value|);
    }
  }

  lemma NumberWf(n: nat, depth: nat)
    requires n <= MAX_UINT32
    ensures WfElem(Word(Decimal(n)), depth)
  {
    Uint32Length(n);
    hide Decimal;
  }

  lemma NilWf(depth: nat)
    ensures WfElem(Word(NIL), depth)
  {
  }

  lemma MoreWf(previous: Previous, head: Elem, tail: Elems, depth: nat)
    requires previous == AfterToken || previous == AfterClose
    requires WfElem(head, depth) && WfElems(tail, Last(head), depth)
    ensures WfElems(More(true, head, tail), previous, depth)
  {
  }

  lemma FirstWf(head: Elem, tail: Elems, depth: nat)
    requires WfElem(head, depth) && WfElems(tail, Last(head), depth)
    ensures WfElems(More(false, head, tail), AfterOpen, depth)
  {
  }

  lemma {:induction false} ParamListWf(params: seq<Param>, first: bool, depth: nat)
    requires ValidParams(params)
    ensures WfElems(ParamElems(params, first), if first then AfterOpen else AfterToken, depth)
    decreases |params|
  {
    hide StringElem, ValidValue, WfElem;
    if params != [] {
      var p := params[0];
      assert p in params;
      assert |p.name| <= MAX_VALUE && |p.value| <= MAX_VALUE by { ValueLength(p.name); ValueLength(p.value); }
      StringTokens(p.name);
      StringTokens(p.value);
      StringWf(p.name, depth);
      StringWf(p.value, depth);
      ParamListWf(params[1..], false, depth);
    }
  }

  lemma ValueLength(value: bytes)
    ensures ValidValue(value, false) || ValidValue(value, true) ==> |value| <= MAX_VALUE
  {
  }

  lemma ParamsWf(params: seq<Param>, depth: nat)
    requires ValidParams(params) && depth < MAX_DEPTH
    ensures WfElem(ParamsElem(params), depth)
  {
    hide ParamElems, ValidParams, WfElems;
    NilWf(depth);
    ParamListWf(params, true, depth + 1);
  }

  lemma DispositionWf(disposition: Option<Disposition>, depth: nat)
    requires disposition.Some? ==> |disposition.value.value| <= MAX_VALUE && ValidParams(disposition.value.params)
    requires depth + 1 < MAX_DEPTH
    ensures WfElem(DispositionElem(disposition), depth)
  {
    hide StringElem, ParamsElem, ValidParams;
    NilWf(depth);
    if disposition.Some? {
      var d := disposition.value;
      StringTokens(d.value);
      StringWf(d.value, depth + 1);
      ParamsWf(d.params, depth + 1);
      var params := More(true, ParamsElem(d.params), Empty);
      MoreWf(AfterToken, ParamsElem(d.params), Empty, depth + 1);
      FirstWf(StringElem(d.value), params, depth + 1);
    }
  }

  /** What a valid node's fields give its text. */
  lemma FieldsFit(part: BodyPart)
    requires ValidFields(part)
    ensures |part.subtype| <= MAX_VALUE && |part.mediaType| <= MAX_VALUE && |Encoding(part)| <= MAX_VALUE
    ensures ValidParams(part.params) && part.size <= MAX_UINT32 && part.lines <= MAX_UINT32
    ensures part.disposition.Some? ==>
              |part.disposition.value.value| <= MAX_VALUE && ValidParams(part.disposition.value.params)
  {
    hide Utf8.Valid, ValidParams, ValidShape;
  }

  lemma NilNilWf(previous: Previous, depth: nat)
    requires previous == AfterToken || previous == AfterClose
    ensures WfElems(NilNil(), previous, depth)
  {
  }

  lemma EndWf(part: BodyPart, previous: Previous, depth: nat)
    requires ValidFields(part) && depth + 1 < MAX_DEPTH && (previous == AfterToken || previous == AfterClose)
    ensures WfElems(More(true, DispositionElem(part.disposition), NilNil()), previous, depth)
  {
    hide ValidFields, DispositionElem, NilNil, WfElem;
    FieldsFit(part);
    DispositionWf(part.disposition, depth);
    NilNilWf(Last(DispositionElem(part.disposition)), depth);
    MoreWf(previous, DispositionElem(part.disposition), NilNil(), depth);
  }

  lemma LeafNumbersWf(part: BodyPart, depth: nat)
    requires ValidFields(part) && depth + 1 < MAX_DEPTH
    ensures WfElems(LeafNumbers(part), AfterToken, depth)
  {
    hide ValidFields, DispositionElem, NilNil, WfElem, Decimal;
    FieldsFit(part);
    EndWf(part, AfterToken, depth);
    NilWf(depth);
    NumberWf(part.size, depth);
    NumberWf(part.lines, depth);
    var end := More(true, DispositionElem(part.disposition), NilNil());
    MoreWf(AfterToken, Word(NIL), end, depth);
    if part.kind.TextPart? {
      MoreWf(AfterToken, Word(Decimal(part.lines)), LeafEnd(part), depth);
      MoreWf(AfterToken, Word(Decimal(part.size)), More(true, Word(Decimal(part.lines)), LeafEnd(part)), depth);
    } else {
      MoreWf(AfterToken, Word(Decimal(part.size)), LeafEnd(part), depth);
    }
  }

  lemma LeafWf(part: BodyPart, depth: nat)
    requires ValidFields(part) && depth + 1 < MAX_DEPTH
    ensures WfElems(LeafElems(part), AfterOpen, depth)
  {
    hide ValidFields, StringElem, ParamsElem, LeafNumbers, WfElem, Encoding;
    FieldsFit(part);
    StringTokens(part.mediaType);
    StringTokens(part.subtype);
    StringTokens(Encoding(part));
    LeafNumbersWf(part, depth);
    StringWf(part.mediaType, depth);
    StringWf(part.subtype, depth);
    StringWf(Encoding(part), depth);
    ParamsWf(part.params, depth);
    NilWf(depth);
    var t1 := More(true, StringElem(Encoding(part)), LeafNumbers(part));
    MoreWf(AfterToken, StringElem(Encoding(part)), LeafNumbers(part), depth);
    MoreWf(AfterToken, Word(NIL), t1, depth);
    var t2 := More(true, Word(NIL), t1);
    MoreWf(Last(ParamsElem(part.params)), Word(NIL), t2, depth);
    var t3 := More(true, Word(NIL), t2);
    MoreWf(AfterToken, ParamsElem(part.params), t3, depth);
    var t4 := More(true, ParamsElem(part.params), t3);
    MoreWf(AfterToken, StringElem(part.subtype), t4, depth);
    FirstWf(StringElem(part.mediaType), More(true, StringElem(part.subtype), t4), depth);
  }

  lemma StringTokens(value: bytes)
    ensures Last(StringElem(value)) == AfterToken && !StringElem(value).Group?
  {
  }

  lemma ContainerEndWf(part: BodyPart, depth: nat)
    requires ValidFields(part) && depth + 1 < MAX_DEPTH
    ensures WfElems(ContainerEnd(part), AfterClose, depth)
  {
    hide ValidFields, StringElem, ParamsElem, DispositionElem, NilNil, WfElem;
    FieldsFit(part);
    StringTokens(part.subtype);
    StringWf(part.subtype, depth);
    ParamsWf(part.params, depth);
    var end := More(true, DispositionElem(part.disposition), NilNil());
    EndWf(part, Last(ParamsElem(part.params)), depth);
    MoreWf(AfterToken, ParamsElem(part.params), end, depth);
    MoreWf(AfterClose, StringElem(part.subtype), More(true, ParamsElem(part.params), end), depth);
  }

  /** The text of a valid tree obeys the grammar, well within its nesting limit. */
  lemma {:induction false} BodyWf(part: BodyPart, depth: nat)
    requires ValidTree(part, depth)
    ensures WfElems(Body(part), AfterOpen, depth + 1)
    decreases part, 1
  {
    hide LeafElems, ContainerEnd, ValidFields, WfElems;
    if part.kind.MultipartPart? {
      ContainerEndWf(part, depth + 1);
      assert part.children != [] by { HasChildren(part); }
      ChildrenWf(part.children, ContainerEnd(part), depth, AfterOpen);
    } else {
      LeafWf(part, depth + 1);
    }
  }

  lemma HasChildren(part: BodyPart)
    requires ValidFields(part) && part.kind.MultipartPart?
    ensures part.children != []
  {
  }

  lemma {:induction false} ChildrenWf(parts: seq<BodyPart>, tail: Elems, depth: nat, previous: Previous)
    requires parts != [] && depth <= MAX_TREE_DEPTH && forall c :: c in parts ==> ValidTree(c, depth + 1)
    requires WfElems(tail, AfterClose, depth + 1) && (previous == AfterOpen || previous == AfterClose)
    ensures WfElems(Children(parts, tail), previous, depth + 1)
    decreases parts, 0
  {
    hide ValidTree, Body;
    assert parts[0] in parts;
    BodyWf(parts[0], depth + 1);
    assert forall c :: c in parts[1..] ==> c in parts;
    if |parts| > 1 {
      ChildrenWf(parts[1..], tail, depth, AfterClose);
    } else {
      assert Children(parts[1..], tail) == tail;
    }
  }

  // ---- The FETCH line ----

  /** A requested item the quarantine can see in a response; UID always leads. */
  datatype Request = RequestFlags | RequestStructure

  const SEEN: bytes := [BACKSLASH, 0x53, 0x65, 0x65, 0x6e]

  function ItemText(request: Request, seen: bool, root: BodyPart): bytes {
    match request
    case RequestFlags => [SP] + FLAGS + [SP, LPAREN] + (if seen then SEEN else []) + [RPAREN]
    case RequestStructure => [SP] + BODYSTRUCTURE + [SP] + Render(root)
  }

  function ItemsText(requests: seq<Request>, seen: bool, root: BodyPart): bytes {
    if requests == [] then []
    else ItemText(requests[0], seen, root) + ItemsText(requests[1..], seen, root)
  }

  /** The response line for one message, through its CRLF. */
  function FetchLine(number: nat, uid: nat, requests: seq<Request>, seen: bool, root: BodyPart): bytes {
    Head(Decimal(number), FETCH) + [LPAREN] + (UID + [SP] + Decimal(uid)) + ItemsText(requests, seen, root) + [RPAREN, CR, LF]
  }

  function RequestAttr(request: Request, seen: bool, root: BodyPart): Attr {
    match request
    case RequestFlags => FlagsAttr(FLAGS, if seen then More(false, Word(SEEN), Empty) else Empty)
    case RequestStructure => StructureAttr(BODYSTRUCTURE, Body(root))
  }

  function RequestAttrs(requests: seq<Request>, seen: bool, root: BodyPart): seq<Attr> {
    if requests == [] then [] else [RequestAttr(requests[0], seen, root)] + RequestAttrs(requests[1..], seen, root)
  }

  /** The attribute list of the line. */
  function LineAttrs(uid: nat, requests: seq<Request>, seen: bool, root: BodyPart): seq<Attr> {
    [UidAttr(UID, Decimal(uid))] + RequestAttrs(requests, seen, root)
  }

  ghost predicate NoRepeats(requests: seq<Request>) {
    forall i, j :: 0 <= i < j < |requests| ==> requests[i] != requests[j]
  }

  lemma ItemPrints(request: Request, seen: bool, root: BodyPart)
    ensures [SP] + PrintAttr(RequestAttr(request, seen, root)) == ItemText(request, seen, root)
  {
    hide Render, Body;
    match request
    case RequestFlags =>
      var body := if seen then More(false, Word(SEEN), Empty) else Empty;
      PrintEmpty([]);
      PrintMore(false, Word(SEEN), Empty, []);
      assert Print(body) == if seen then SEEN else [];
    case RequestStructure =>
      BodyPrints(root);
  }

  lemma {:induction false} ItemsPrint(a: Attr, requests: seq<Request>, seen: bool, root: BodyPart)
    ensures PrintAttrs([a] + RequestAttrs(requests, seen, root)) == PrintAttr(a) + ItemsText(requests, seen, root)
    decreases |requests|
  {
    hide PrintAttr, RequestAttr, ItemText;
    var rest := RequestAttrs(requests, seen, root);
    if requests == [] {
      assert [a] + rest == [a];
    } else {
      var b := RequestAttr(requests[0], seen, root);
      assert ([a] + rest)[1..] == [b] + RequestAttrs(requests[1..], seen, root);
      ItemsPrint(b, requests[1..], seen, root);
      ItemPrints(requests[0], seen, root);
      Assoc(PrintAttr(a), [SP] + PrintAttr(b), ItemsText(requests[1..], seen, root));
      assert PrintAttr(a) + [SP] + (PrintAttr(b) + ItemsText(requests[1..], seen, root)) ==
             PrintAttr(a) + ([SP] + PrintAttr(b)) + ItemsText(requests[1..], seen, root);
    }
  }

  lemma LinePrints(number: nat, uid: nat, requests: seq<Request>, seen: bool, root: BodyPart)
    ensures FetchLine(number, uid, requests, seen, root) ==
            Head(Decimal(number), FETCH) + PrintList(LineAttrs(uid, requests, seen, root))
  {
    hide Decimal, ItemsText, RequestAttrs, PrintAttrs, Head;
    var a := UidAttr(UID, Decimal(uid));
    ItemsPrint(a, requests, seen, root);
    var h, items := Head(Decimal(number), FETCH), ItemsText(requests, seen, root);
    assert h + [LPAREN] + (UID + [SP] + Decimal(uid)) + items + [RPAREN, CR, LF] ==
           h + ([LPAREN] + (PrintAttr(a) + items) + [RPAREN, CR, LF]);
  }

  lemma NameSelf(item: Item)
    ensures UpperIs(KindName(item), KindName(item)) && WordText(KindName(item))
  {
    hide UpperIs;
    UppersToItself(KindName(item));
  }

  lemma RequestWf(request: Request, seen: bool, root: BodyPart)
    requires ValidTree(root, 1)
    ensures WfAttr(RequestAttr(request, seen, root))
    ensures Kind(RequestAttr(request, seen, root)) == if request.RequestFlags? then FlagsItem else StructureItem
  {
    hide ValidTree, Body, UpperIs, WordText, Flag;
    match request
    case RequestFlags =>
      NameSelf(FlagsItem);
      SeenFlag();
      assert FlagElems(Empty, false) && FlagElems(Empty, true);
      assert FlagElems(More(false, Word(SEEN), Empty), true);
    case RequestStructure =>
      NameSelf(StructureItem);
      BodyWf(root, 1);
  }

  lemma SeenFlag()
    ensures WordText(SEEN) && Flag(SEEN)
  {
  }

  lemma UidWf(uid: nat)
    requires 0 < uid <= MAX_UINT32
    ensures WfAttr(UidAttr(UID, Decimal(uid))) && Number(Decimal(uid), false) == Some(uid)
  {
    hide UpperIs, WordText;
    NameSelf(UidItem);
    NumberWf(uid, 1);
    PositiveNumber(uid);
  }

  lemma PositiveNumber(n: nat)
    requires 0 < n <= MAX_UINT32
    ensures Number(Decimal(n), false) == Some(n)
  {
    DecimalRoundTrip(n);
    hide Decimal, DecimalValue;
  }

  lemma {:induction false} RequestsWf(requests: seq<Request>, seen: bool, root: BodyPart)
    requires ValidTree(root, 1)
    ensures |RequestAttrs(requests, seen, root)| == |requests|
    ensures forall i :: 0 <= i < |requests| ==>
              var a := RequestAttrs(requests, seen, root)[i];
              && a == RequestAttr(requests[i], seen, root) && WfAttr(a)
              && Kind(a) == if requests[i].RequestFlags? then FlagsItem else StructureItem
    decreases |requests|
  {
    hide WfAttr, RequestAttr, ValidTree, Kind;
    if requests != [] {
      RequestWf(requests[0], seen, root);
      RequestsWf(requests[1..], seen, root);
    }
  }

  lemma LineWf(uid: nat, requests: seq<Request>, seen: bool, root: BodyPart)
    requires 0 < uid <= MAX_UINT32 && ValidTree(root, 1) && NoRepeats(requests)
    ensures var attrs := LineAttrs(uid, requests, seen, root);
            && WfList(attrs) && Names(attrs, uid)
            && (Has(attrs, StructureItem) <==> RequestStructure in requests)
            && (Has(attrs, FlagsItem) <==> RequestFlags in requests)
  {
    hide WfAttr, RequestAttrs, ValidTree, Number, Decimal;
    UidWf(uid);
    RequestsWf(requests, seen, root);
    var first := UidAttr(UID, Decimal(uid));
    var rest := RequestAttrs(requests, seen, root);
    var attrs := [first] + rest;
    assert attrs[0] == first;
    forall i | 0 <= i < |attrs| ensures WfAttr(attrs[i]) && (i > 0 ==> attrs[i] == rest[i - 1]) {
    }
    forall a | a in attrs ensures WfAttr(a) {
      var i :| 0 <= i < |attrs| && attrs[i] == a;
    }
    assert DistinctKinds(attrs);
    HasRequest(attrs, rest, requests, StructureItem, RequestStructure);
    HasRequest(attrs, rest, requests, FlagsItem, RequestFlags);
  }

  lemma HasRequest(attrs: seq<Attr>, rest: seq<Attr>, requests: seq<Request>, item: Item, request: Request)
    requires attrs != [] && attrs[0].UidAttr? && attrs[1..] == rest && |rest| == |requests|
    requires item == if request.RequestFlags? then FlagsItem else StructureItem
    requires forall i :: 0 <= i < |requests| ==>
               Kind(rest[i]) == if requests[i].RequestFlags? then FlagsItem else StructureItem
    ensures Has(attrs, item) <==> request in requests
  {
    if request in requests {
      var i :| 0 <= i < |requests| && requests[i] == request;
      assert attrs[i + 1] == rest[i] && attrs[i + 1] in attrs;
    }
    if Has(attrs, item) {
      var a :| a in attrs && Kind(a) == item;
      var i :| 0 <= i < |attrs| && attrs[i] == a;
      assert i > 0 && attrs[i] == rest[i - 1];
      assert requests[i - 1] == request;
    }
  }

  lemma NumberHead(number: nat)
    requires 0 < number <= MAX_UINT32
    ensures HeadWords(Decimal(number), FETCH)
  {
    hide UpperIs;
    UppersToItself(FETCH);
    PositiveNumber(number);
  }

  /** The line that carries a valid tree is released byte for byte, as the one
      structure FETCH, when it carries the selected UID while the dispatch is
      active and the budgets allow it. */
  lemma StructureLineIsReleased(m: Machine, number: nat, uid: nat, requests: seq<Request>, seen: bool, root: BodyPart)
    requires Safe(m) && m.terminal.None? && m.mode.AtBoundary? && m.dispatch == Active && m.selected == uid
    requires 0 < number <= MAX_UINT32 && 0 < uid <= MAX_UINT32
    requires ValidTree(root, 1) && NoRepeats(requests) && RequestStructure in requests
    requires FetchFits(m, FetchLine(number, uid, requests, seen, root), LineAttrs(uid, requests, seen, root))
    ensures var w := FetchLine(number, uid, requests, seen, root);
            var r := FeedAll(m, w);
            && r.log == m.log + [Framed(Structure, w)]
            && r.out + r.pending == m.out + m.pending + w
            && r.dispatch == Delivered && r.terminal.None?
  {
    hide Feed, FeedAll, FetchFits, FetchLine, LineAttrs, ValidTree, HeadWords, WfList, PrintList, Head, Decimal, Has, Names;
    var w, attrs := FetchLine(number, uid, requests, seen, root), LineAttrs(uid, requests, seen, root);
    LinePrints(number, uid, requests, seen, root);
    LineWf(uid, requests, seen, root);
    NumberHead(number);
    FetchOutcome(m, Decimal(number), FETCH, attrs, Structure);
    var r := FeedAll(m, w);
    ReleasedNow(m, w, Structure);
  }

  /** A line without the structure that carries flags is consumed whole. */
  lemma FlagsLineIsConsumed(m: Machine, number: nat, uid: nat, requests: seq<Request>, seen: bool, root: BodyPart)
    requires Safe(m) && m.terminal.None? && m.mode.AtBoundary?
    requires 0 < number <= MAX_UINT32 && 0 < uid <= MAX_UINT32
    requires ValidTree(root, 1) && NoRepeats(requests) && RequestStructure !in requests && RequestFlags in requests
    requires FetchFits(m, FetchLine(number, uid, requests, seen, root), LineAttrs(uid, requests, seen, root))
    ensures var w := FetchLine(number, uid, requests, seen, root);
            var r := FeedAll(m, w);
            && r.log == m.log + [Framed(FlagsOnly, w)]
            && r.out + r.pending == m.out + m.pending
            && r.terminal.None?
  {
    hide Feed, FeedAll, FetchFits, FetchLine, LineAttrs, ValidTree, HeadWords, WfList, PrintList, Head, Decimal, Has, Names;
    var w, attrs := FetchLine(number, uid, requests, seen, root), LineAttrs(uid, requests, seen, root);
    LinePrints(number, uid, requests, seen, root);
    LineWf(uid, requests, seen, root);
    NumberHead(number);
    FetchOutcome(m, Decimal(number), FETCH, attrs, FlagsOnly);
    ReleasedNow(m, w, FlagsOnly);
  }

  lemma ReleasedNow(m: Machine, w: bytes, kind: FrameKind)
    requires Safe(m) && m.terminal.None? && m.mode.AtBoundary? && Admits(m, w, kind)
    ensures var r := FeedAll(m, w);
            && r.out + r.pending == m.out + m.pending + (if kind == FlagsOnly then [] else w)
            && r.terminal.None?
            && (kind == Structure ==> r.dispatch == Delivered)
  {
    hide FeedAll, Approved;
    SafeFeedAll(m, w);
    AdmittedRuns(m, w, kind);
    var log := m.log + [Framed(kind, w)];
    assert log[..|log| - 1] == m.log;
  }

  /** The fixture writing that line, item after item. */
  method WriteStructureFetch(number: nat, uid: nat, requests: seq<Request>, seen: bool, root: BodyPart) returns (line: bytes)
    ensures line == FetchLine(number, uid, requests, seen, root)
  {
    hide Render, Decimal;
    var builder := new Builder();
    builder.RenderBodyPart(root);
    var structure := builder.text;
    assert structure == Render(root) by {
      assert [] + Render(root) == Render(root);
    }
    line := Head(Decimal(number), FETCH) + [LPAREN] + (UID + [SP] + Decimal(uid));
    ghost var start := line;
    var i := 0;
    assert requests[0..] == requests;
    while i < |requests|
      invariant i <= |requests|
      invariant line + ItemsText(requests[i..], seen, root) == start + ItemsText(requests, seen, root)
    {
      assert requests[i..][0] == requests[i] && requests[i..][1..] == requests[i + 1..];
      Assoc(line, ItemText(requests[i], seen, root), ItemsText(requests[i + 1..], seen, root));
      match requests[i] {
        case RequestFlags =>
          line := line + ([SP] + FLAGS + [SP, LPAREN] + (if seen then SEEN else []) + [RPAREN]);
        case RequestStructure =>
          line := line + ([SP] + BODYSTRUCTURE + [SP] + structure);
      }
      i := i + 1;
    }
    assert line + [] == line;
    line := line + [RPAREN, CR, LF];
  }

}
