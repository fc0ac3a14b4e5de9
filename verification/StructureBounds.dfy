/** How large a rendered descriptor tree is, and which trees therefore pass a
    fresh reader (internal/testkit/bodystructure.go:111-311, 404-459 with
    bridge/structure_quarantine.go:16-23, 643-690). */
module StructureBounds {
  import opened Octets
  import opened Wrappers
  import opened QuarantineLexis
  import opened FetchGrammar
  import opened FetchFrame
  import opened QuarantineMachine
  import opened QuarantineRuns
  import opened QuarantineSafety
  import opened QuarantineExact
  import opened BodyStructure
  import opened StructureRelease

  // ---- Tokens, exactly ----

  function ParamsCount(params: seq<Param>): nat {
    if params == [] then 1 else 2 + 2 * |params|
  }

  function DispositionCount(disposition: Option<Disposition>): nat {
    match disposition
    case None => 1
    case Some(d) => 3 + ParamsCount(d.params)
  }

  /** The tokens of a part's text, its own parentheses included. */
  function Count(part: BodyPart): nat
    decreases part
  {
    var fields := ParamsCount(part.params) + DispositionCount(part.disposition);
    if part.kind.MultipartPart? then 5 + fields + CountAll(part.children)
    else 11 + fields + if part.kind.TextPart? then 1 else 0
  }

  function CountAll(parts: seq<BodyPart>): nat
    decreases parts
  {
    if parts == [] then 0 else Count(parts[0]) + CountAll(parts[1..])
  }

  lemma StringCount(value: bytes)
    ensures ElemTokens(StringElem(value)) == 1
  {
  }

  lemma {:induction false} ParamListCount(params: seq<Param>, first: bool)
    ensures Tokens(ParamElems(params, first)) == 2 * |params|
    decreases |params|
  {
    hide StringElem;
    if params != [] {
      StringCount(params[0].name);
      StringCount(params[0].value);
      ParamListCount(params[1..], false);
    }
  }

  lemma ParamsElemCount(params: seq<Param>)
    ensures ElemTokens(ParamsElem(params)) == ParamsCount(params)
  {
    hide ParamElems;
    ParamListCount(params, true);
  }

  lemma DispositionElemCount(disposition: Option<Disposition>)
    ensures ElemTokens(DispositionElem(disposition)) == DispositionCount(disposition)
  {
    hide StringElem, ParamsElem, ParamsCount;
    if disposition.Some? {
      var d := disposition.value;
      StringCount(d.value);
      ParamsElemCount(d.params);
      MoreCount(true, ParamsElem(d.params), Empty);
      MoreCount(false, StringElem(d.value), More(true, ParamsElem(d.params), Empty));
    }
  }

  lemma MoreCount(gap: bool, head: Elem, tail: Elems)
    ensures Tokens(More(gap, head, tail)) == ElemTokens(head) + Tokens(tail)
  {
  }

  lemma WordCount(text: bytes)
    ensures ElemTokens(Word(text)) == 1
  {
  }

  lemma NilNilCount()
    ensures Tokens(NilNil()) == 2
  {
  }

  lemma EndCount(disposition: Option<Disposition>)
    ensures Tokens(More(true, DispositionElem(disposition), NilNil())) == DispositionCount(disposition) + 2
  {
    hide DispositionElem, DispositionCount, ElemTokens, NilNil;
    DispositionElemCount(disposition);
    NilNilCount();
    MoreCount(true, DispositionElem(disposition), NilNil());
  }

  lemma LeafNumbersCount(part: BodyPart)
    ensures Tokens(LeafNumbers(part)) == 4 + DispositionCount(part.disposition) + if part.kind.TextPart? then 1 else 0
  {
    hide DispositionElem, DispositionCount, ElemTokens, Tokens, NilNil, Decimal;
    EndCount(part.disposition);
    var end := More(true, DispositionElem(part.disposition), NilNil());
    WordCount(NIL);
    WordCount(Decimal(part.size));
    WordCount(Decimal(part.lines));
    MoreCount(true, Word(NIL), end);
    MoreCount(true, Word(Decimal(part.lines)), LeafEnd(part));
    MoreCount(true, Word(Decimal(part.size)),
              if part.kind.TextPart? then More(true, Word(Decimal(part.lines)), LeafEnd(part)) else LeafEnd(part));
  }

  lemma LeafCount(part: BodyPart)
    requires !part.kind.MultipartPart?
    ensures 2 + Tokens(LeafElems(part)) == Count(part)
  {
    hide StringElem, ParamsElem, ParamsCount, DispositionCount, ElemTokens, Tokens, LeafNumbers;
    LeafNumbersCount(part);
    ParamsElemCount(part.params);
    StringCount(part.mediaType);
    StringCount(part.subtype);
    StringCount(Encoding(part));
    WordCount(NIL);
    var t1 := More(true, StringElem(Encoding(part)), LeafNumbers(part));
    var t2 := More(true, Word(NIL), t1);
    var t3 := More(true, Word(NIL), t2);
    var t4 := More(true, ParamsElem(part.params), t3);
    var t5 := More(true, StringElem(part.subtype), t4);
    MoreCount(true, StringElem(Encoding(part)), LeafNumbers(part));
    MoreCount(true, Word(NIL), t1);
    MoreCount(true, Word(NIL), t2);
    MoreCount(true, ParamsElem(part.params), t3);
    MoreCount(true, StringElem(part.subtype), t4);
    MoreCount(false, StringElem(part.mediaType), t5);
  }

  lemma ContainerEndCount(part: BodyPart)
    ensures Tokens(ContainerEnd(part)) == 3 + ParamsCount(part.params) + DispositionCount(part.disposition)
  {
    hide StringElem, ParamsElem, DispositionElem, ParamsCount, DispositionCount, ElemTokens, Tokens, NilNil;
    EndCount(part.disposition);
    ParamsElemCount(part.params);
    StringCount(part.subtype);
    var t1 := More(true, DispositionElem(part.disposition), NilNil());
    MoreCount(true, ParamsElem(part.params), t1);
    MoreCount(true, StringElem(part.subtype), More(true, ParamsElem(part.params), t1));
  }

  /** A part's syntax tree has exactly the tokens counted off its descriptor. */
  lemma {:induction false} BodyCount(part: BodyPart)
    ensures 2 + Tokens(Body(part)) == Count(part)
    decreases part, 1
  {
    hide Tokens, LeafElems, ContainerEnd, ParamsCount, DispositionCount;
    if part.kind.MultipartPart? {
      ContainerEndCount(part);
      ChildrenCount(part.children, ContainerEnd(part));
    } else {
      LeafCount(part);
    }
  }

  lemma {:induction false} ChildrenCount(parts: seq<BodyPart>, tail: Elems)
    ensures Tokens(Children(parts, tail)) == CountAll(parts) + Tokens(tail)
    decreases parts, 0
  {
    hide Body, Count, Tokens;
    if parts != [] {
      BodyCount(parts[0]);
      ChildrenCount(parts[1..], tail);
      MoreCount(false, Group(Body(parts[0])), Children(parts[1..], tail));
    }
  }

  // ---- Measures of a tree ----

  /** The parameters of all nodes, those of dispositions included. */
  function ParamsIn(part: BodyPart): nat
    decreases part
  {
    |part.params| + DispositionParams(part) + ParamsInAll(part.children)
  }

  function ParamsInAll(parts: seq<BodyPart>): nat
    decreases parts
  {
    if parts == [] then 0 else ParamsIn(parts[0]) + ParamsInAll(parts[1..])
  }

  function ParamOctets(params: seq<Param>): nat {
    if params == [] then 0 else |params[0].name| + |params[0].value| + ParamOctets(params[1..])
  }

  function DispositionOctets(disposition: Option<Disposition>): nat {
    match disposition
    case None => 0
    case Some(d) => |d.value| + ParamOctets(d.params)
  }

  /** The octets of the strings of one node. */
  function OwnOctets(part: BodyPart): nat {
    |part.mediaType| + |part.subtype| + |part.encoding| + ParamOctets(part.params) + DispositionOctets(part.disposition)
  }

  /** The octets of all strings of a tree. */
  function OctetsIn(part: BodyPart): nat
    decreases part
  {
    OwnOctets(part) + OctetsInAll(part.children)
  }

  function OctetsInAll(parts: seq<BodyPart>): nat
    decreases parts
  {
    if parts == [] then 0 else OctetsIn(parts[0]) + OctetsInAll(parts[1..])
  }

  lemma {:induction false} CountBound(part: BodyPart)
    ensures Count(part) <= 19 * Nodes(part) + 2 * ParamsIn(part)
    decreases part, 1
  {
    hide Nodes, ParamsIn, Count;
    OneCount(part);
    CountAllBound(part.children);
  }

  lemma OneCount(part: BodyPart)
    ensures Count(part) <= 19 + 2 * (|part.params| + DispositionParams(part)) + CountAll(part.children)
    ensures Nodes(part) == 1 + NodesOf(part.children)
    ensures ParamsIn(part) == |part.params| + DispositionParams(part) + ParamsInAll(part.children)
  {
    hide CountAll, NodesOf, ParamsInAll;
  }

  lemma {:induction false} CountAllBound(parts: seq<BodyPart>)
    ensures CountAll(parts) <= 19 * NodesOf(parts) + 2 * ParamsInAll(parts)
    decreases parts, 0
  {
    hide Count, Nodes, ParamsIn;
    if parts != [] {
      CountBound(parts[0]);
      CountAllBound(parts[1..]);
    }
  }

  // ---- Octets, bounded ----

  lemma {:induction false} EscapeBound(value: bytes)
    ensures |Escape(value)| <= 2 * |value|
    decreases |value|
  {
    if value != [] {
      EscapeBound(value[1..]);
    }
  }

  lemma StringBound(value: bytes)
    requires |value| <= MAX_VALUE
    ensures |RenderString(value)| <= 2 * |value| + 7
  {
    hide Escape, Decimal;
    EscapeBound(value);
    ThreeDigits(|value|);
  }

  lemma ThreeDigits(n: nat)
    requires n <= MAX_VALUE
    ensures |Decimal(n)| <= 3
  {
    hide Decimal;
    assert Pow10(3) == 1000;
    DecimalLength(n, 3);
  }

  lemma {:induction false} ParamListBound(params: seq<Param>, first: bool)
    requires ValidParams(params)
    ensures |RenderParamList(params, first)| <= 16 * |params| + 2 * ParamOctets(params)
    decreases |params|
  {
    hide RenderString, ValidValue;
    if params != [] {
      assert params[0] in params;
      ValueLength(params[0].name);
      ValueLength(params[0].value);
      StringBound(params[0].name);
      StringBound(params[0].value);
      ParamListBound(params[1..], false);
    }
  }

  lemma ParamsBound(params: seq<Param>)
    requires ValidParams(params)
    ensures |RenderParams(params)| <= 3 + 16 * |params| + 2 * ParamOctets(params)
  {
    hide RenderParamList, ValidParams, ParamOctets;
    ParamListBound(params, true);
  }

  lemma DispositionBound(disposition: Option<Disposition>)
    requires disposition.Some? ==> |disposition.value.value| <= MAX_VALUE && ValidParams(disposition.value.params)
    ensures var params := if disposition.Some? then |disposition.value.params| else 0;
            |RenderDisposition(disposition)| <= 13 + 16 * params + 2 * DispositionOctets(disposition)
  {
    hide RenderString, RenderParams, ValidParams, ParamOctets;
    if disposition.Some? {
      StringBound(disposition.value.value);
      ParamsBound(disposition.value.params);
    }
  }

  lemma Uint32Bound(n: nat)
    requires n <= MAX_UINT32
    ensures |Decimal(n)| <= 10
  {
    Uint32Length(n);
  }

  lemma LinesBound(part: BodyPart)
    requires part.lines <= MAX_UINT32
    ensures |RenderLines(part)| <= 11
  {
    hide Decimal;
    Uint32Bound(part.lines);
  }

  /** What a node adds to the text of its children. */
  lemma OneBound(part: BodyPart)
    requires ValidFields(part)
    ensures |Render(part)| <= 93 + 16 * (|part.params| + DispositionParams(part)) + 2 * OwnOctets(part) + |RenderAll(part.children)|
  {
    hide RenderString, RenderParams, RenderDisposition, RenderAll, RenderLines, Decimal, ValidFields, ParamOctets, DispositionOctets, ValidParams;
    FieldsFit(part);
    StringBound(part.mediaType);
    StringBound(part.subtype);
    StringBound(Encoding(part));
    ParamsBound(part.params);
    DispositionBound(part.disposition);
    Uint32Bound(part.size);
    LinesBound(part);
  }

  lemma {:induction false} RenderBound(part: BodyPart, depth: nat)
    requires ValidTree(part, depth)
    ensures |Render(part)| <= 93 * Nodes(part) + 16 * ParamsIn(part) + 2 * OctetsIn(part)
    decreases part, 1
  {
    hide Render, OwnOctets, ValidFields, RenderAll, NodesOf, ParamsInAll, OctetsInAll, DispositionParams;
    OneBound(part);
    RenderAllBound(part.children, depth + 1);
  }

  lemma {:induction false} RenderAllBound(parts: seq<BodyPart>, depth: nat)
    requires forall c :: c in parts ==> ValidTree(c, depth)
    ensures |RenderAll(parts)| <= 93 * NodesOf(parts) + 16 * ParamsInAll(parts) + 2 * OctetsInAll(parts)
    decreases parts, 0
  {
    hide Render, ValidTree, Nodes, ParamsIn, OctetsIn;
    if parts != [] {
      assert parts[0] in parts;
      RenderBound(parts[0], depth);
      assert forall c :: c in parts[1..] ==> c in parts;
      RenderAllBound(parts[1..], depth);
    }
  }

  // ---- The line ----

  function RequestCount(request: Request, seen: bool, root: BodyPart): nat {
    match request
    case RequestFlags => if seen then 4 else 3
    case RequestStructure => 1 + Count(root)
  }

  /** The tokens of the FETCH line, the outer parentheses included. */
  function LineCount(requests: seq<Request>, seen: bool, root: BodyPart): nat {
    if requests == [] then 4 else RequestCount(requests[0], seen, root) + LineCount(requests[1..], seen, root)
  }

  lemma AttrCount(request: Request, seen: bool, root: BodyPart)
    ensures AttrTokens(RequestAttr(request, seen, root)) == RequestCount(request, seen, root)
  {
    hide Count, Body;
    BodyCount(root);
    WordCount(SEEN);
    MoreCount(false, Word(SEEN), Empty);
  }

  lemma {:induction false} AttrsCount(requests: seq<Request>, seen: bool, root: BodyPart)
    ensures ListTokens(RequestAttrs(requests, seen, root)) + 4 == LineCount(requests, seen, root)
    decreases |requests|
  {
    hide RequestAttr, RequestCount, AttrTokens;
    if requests != [] {
      AttrCount(requests[0], seen, root);
      AttrsCount(requests[1..], seen, root);
      var first, rest := RequestAttr(requests[0], seen, root), RequestAttrs(requests[1..], seen, root);
      assert ([first] + rest)[1..] == rest;
    }
  }

  lemma LineTokens(uid: nat, requests: seq<Request>, seen: bool, root: BodyPart)
    ensures 2 + ListTokens(LineAttrs(uid, requests, seen, root)) == LineCount(requests, seen, root)
  {
    hide RequestAttrs, LineCount, Decimal;
    AttrsCount(requests, seen, root);
    var first, rest := UidAttr(UID, Decimal(uid)), RequestAttrs(requests, seen, root);
    assert ([first] + rest)[1..] == rest;
  }

  /** Requests without a repeat are at most the two there are. */
  lemma TwoRequests(requests: seq<Request>)
    requires NoRepeats(requests)
    ensures |requests| <= 2 && (|requests| == 2 ==> requests[0] != requests[1])
  {
    assert |requests| > 2 ==> requests[0] == requests[1] || requests[0] == requests[2] || requests[1] == requests[2];
  }

  lemma LineCountBound(requests: seq<Request>, seen: bool, root: BodyPart)
    requires NoRepeats(requests)
    ensures LineCount(requests, seen, root) <= 9 + Count(root)
  {
    hide Count;
    TwoRequests(requests);
    TwoCounts(requests, seen, root);
  }

  lemma TwoCounts(requests: seq<Request>, seen: bool, root: BodyPart)
    requires |requests| <= 2
    ensures LineCount(requests, seen, root)
            == 4 + (if |requests| > 0 then RequestCount(requests[0], seen, root) else 0)
                 + (if |requests| > 1 then RequestCount(requests[1], seen, root) else 0)
  {
    hide RequestCount;
    if |requests| == 1 {
      assert requests[1..] == [];
    } else if |requests| == 2 {
      assert requests[1..][0] == requests[1] && requests[1..][1..] == [];
    }
  }

  lemma ItemBound(request: Request, seen: bool, root: BodyPart)
    ensures |ItemText(request, seen, root)| <= if request.RequestFlags? then 14 else 15 + |Render(root)|
  {
    hide Render;
  }

  lemma ItemsBound(requests: seq<Request>, seen: bool, root: BodyPart)
    requires NoRepeats(requests)
    ensures |ItemsText(requests, seen, root)| <= 29 + |Render(root)|
  {
    hide ItemText, Render;
    TwoRequests(requests);
    if |requests| > 0 {
      ItemBound(requests[0], seen, root);
    }
    if |requests| > 1 {
      ItemBound(requests[1], seen, root);
    }
    TwoItems(requests, seen, root);
  }

  lemma TwoItems(requests: seq<Request>, seen: bool, root: BodyPart)
    requires |requests| <= 2
    ensures |ItemsText(requests, seen, root)|
            == (if |requests| > 0 then |ItemText(requests[0], seen, root)| else 0)
               + (if |requests| > 1 then |ItemText(requests[1], seen, root)| else 0)
  {
    hide ItemText;
    if |requests| == 1 {
      assert requests[1..] == [];
    } else if |requests| == 2 {
      assert requests[1..][0] == requests[1] && requests[1..][1..] == [];
    }
  }

  lemma LineBound(number: nat, uid: nat, requests: seq<Request>, seen: bool, root: BodyPart)
    requires number <= MAX_UINT32 && uid <= MAX_UINT32 && NoRepeats(requests)
    ensures |FetchLine(number, uid, requests, seen, root)| <= 66 + |Render(root)|
  {
    hide Decimal, ItemsText, Render;
    Uint32Bound(number);
    Uint32Bound(uid);
    ItemsBound(requests, seen, root);
  }

  // ---- A fresh reader ----

  /** A reader that has been dispatched and has read nothing. */
  function FreshReader(uid: nat): Machine {
    Initial(uid).(dispatch := Active)
  }

  lemma FreshIsSafe(uid: nat)
    ensures Safe(FreshReader(uid)) && FreshReader(uid).terminal.None? && FreshReader(uid).mode.AtBoundary?
    ensures FreshReader(uid) == Step(Initial(uid), Begin)
  {
  }

  /** A fresh reader releases the line of a valid tree exactly when the line is
      no longer than a frame and its tokens, counted off the descriptor, are no
      more than a FETCH may have. */
  lemma FreshReleaseIff(number: nat, uid: nat, requests: seq<Request>, seen: bool, root: BodyPart)
    requires 0 < number <= MAX_UINT32 && 0 < uid <= MAX_UINT32
    requires ValidTree(root, 1) && NoRepeats(requests) && RequestStructure in requests
    ensures FreshReader(uid).mode.AtBoundary? && Ok(FreshReader(uid))
    ensures Admits(FreshReader(uid), FetchLine(number, uid, requests, seen, root), Structure) <==>
              |FetchLine(number, uid, requests, seen, root)| <= FRAME_BYTES && LineCount(requests, seen, root) <= FETCH_TOKENS
  {
    hide FeedAll, Admits, FetchLine, LineAttrs, ListTokens, LineCount, ValidTree, HeadWords, WfList, PrintList, Head, Decimal, Has, Names, Safe;
    var m := FreshReader(uid);
    var w, attrs := FetchLine(number, uid, requests, seen, root), LineAttrs(uid, requests, seen, root);
    FreshIsSafe(uid);
    LinePrints(number, uid, requests, seen, root);
    LineWf(uid, requests, seen, root);
    NumberHead(number);
    LineTokens(uid, requests, seen, root);
    FetchOutcome(m, Decimal(number), FETCH, attrs, Structure);
  }

  /** Few and short enough nodes, parameters and strings. */
  predicate Small(root: BodyPart) {
    && 66 + 93 * Nodes(root) + 16 * ParamsIn(root) + 2 * OctetsIn(root) <= FRAME_BYTES
    && 9 + 19 * Nodes(root) + 2 * ParamsIn(root) <= FETCH_TOKENS
  }

  /** The line of a small valid tree is returned byte for byte by a fresh reader
      after its dispatch. */
  lemma SmallTreeIsReleased(number: nat, uid: nat, requests: seq<Request>, seen: bool, root: BodyPart)
    requires 0 < number <= MAX_UINT32 && 0 < uid <= MAX_UINT32
    requires ValidTree(root, 1) && Small(root) && NoRepeats(requests) && RequestStructure in requests
    ensures var w := FetchLine(number, uid, requests, seen, root);
            var r := FeedAll(Step(Initial(uid), Begin), w);
            r.log == [Framed(Structure, w)] && r.out + r.pending == w && r.dispatch == Delivered && r.terminal.None?
  {
    hide FeedAll, FetchLine, LineCount, ValidTree, Render, Nodes, ParamsIn, OctetsIn, Count, NoRepeats, Safe, Step;
    var w := FetchLine(number, uid, requests, seen, root);
    FreshIsSafe(uid);
    LineBound(number, uid, requests, seen, root);
    RenderBound(root, 1);
    LineCountBound(requests, seen, root);
    CountBound(root);
    FreshReleaseIff(number, uid, requests, seen, root);
    ReleasedNow(FreshReader(uid), w, Structure);
    assert [] + w == w;
  }
}
