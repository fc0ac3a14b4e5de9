/** Reading an extended body structure back, field by field in the order of
    section 7.4.2 of RFC 3501: what the fixture prints reads as the descriptor
    it was given (internal/testkit/bodystructure.go:111-311). */
module StructureReading {
  import opened Octets
  import opened Wrappers
  import opened BodyStructure

  /** What a client learns of one part. Only text has a number of lines. */
  datatype Described =
    | Leaf(mediaType: bytes, subtype: bytes, params: seq<Param>, encoding: bytes, size: nat, lines: Option<nat>,
           disposition: Option<Disposition>)
    | Container(parts: seq<Described>, subtype: bytes, params: seq<Param>, disposition: Option<Disposition>)

  /** What was read and the text after it. */
  datatype Reading<T> = Read(value: T, rest: bytes) | Unreadable

  // ---- Strings, numbers and fixed text ----

  function Fixed(s: bytes, text: bytes): (r: Reading<()>)
    ensures r.Read? ==> |r.rest| == |s| - |text|
  {
    if HasPrefix(s, text) then Read((), s[|text|..]) else Unreadable
  }

  /** The rest of a quoted string, after its opening quote. */
  function QuotedRest(s: bytes): (r: Reading<bytes>)
    ensures r.Read? ==> |r.rest| < |s|
    decreases |s|
  {
    if s == [] then Unreadable
    else if s[0] == QUOTE then Read([], s[1..])
    else if s[0] == BACKSLASH then
      if |s| < 2 then Unreadable
      else
        var later := QuotedRest(s[2..]);
        if later.Read? then Read([s[1]] + later.value, later.rest) else Unreadable
    else
      var later := QuotedRest(s[1..]);
      if later.Read? then Read([s[0]] + later.value, later.rest) else Unreadable
  }

  /** The digits that s starts with. */
  function Digits(s: bytes): (k: nat)
    ensures k <= |s| && AllDigits(s[..k]) && (k < |s| ==> !IsDigit(s[k]))
  {
    if s == [] || !IsDigit(s[0]) then 0
    else
      var k := 1 + Digits(s[1..]);
      assert forall i :: 0 < i < k ==> s[i] == s[1..][i - 1] && IsDigit(s[1..][..k - 1][i - 1]);
      k
  }

  function Number(s: bytes): (r: Reading<nat>)
    ensures r.Read? ==> |r.rest| < |s|
  {
    var k := Digits(s);
    if k == 0 then Unreadable else Read(DecimalValue(s[..k]), s[k..])
  }

  /** A quoted string or a literal. */
  function Text(s: bytes): (r: Reading<bytes>)
    ensures r.Read? ==> |r.rest| < |s|
  {
    if s == [] then Unreadable
    else if s[0] == QUOTE then QuotedRest(s[1..])
    else if s[0] != LBRACE then Unreadable
    else
      var size := Number(s[1..]);
      if size.Unreadable? then Unreadable
      else
        var head := Fixed(size.rest, [RBRACE, CR, LF]);
        if head.Unreadable? || |head.rest| < size.value then Unreadable
        else Read(head.rest[..size.value], head.rest[size.value..])
  }

  /** A string behind a space. */
  function Next(s: bytes): (r: Reading<bytes>)
    ensures r.Read? ==> |r.rest| < |s|
  {
    if s == [] || s[0] != SP then Unreadable else Text(s[1..])
  }

  // ---- Parameters and dispositions ----

  function Pair(s: bytes): (r: Reading<Param>)
    ensures r.Read? ==> |r.rest| < |s|
  {
    var name := Text(s);
    if name.Unreadable? then Unreadable
    else
      var value := Next(name.rest);
      if value.Unreadable? then Unreadable else Read(Param(name.value, value.value), value.rest)
  }

  /** The pairs after the first, to the closing parenthesis. */
  function Pairs(s: bytes): (r: Reading<seq<Param>>)
    ensures r.Read? ==> |r.rest| < |s|
    decreases |s|
  {
    if s == [] then Unreadable
    else if s[0] == RPAREN then Read([], s[1..])
    else if s[0] != SP then Unreadable
    else
      var pair := Pair(s[1..]);
      if pair.Unreadable? then Unreadable
      else
        var later := Pairs(pair.rest);
        if later.Unreadable? then Unreadable else Read([pair.value] + later.value, later.rest)
  }

  /** NIL, or a list of at least one pair. */
  function Params(s: bytes): (r: Reading<seq<Param>>)
    ensures r.Read? ==> |r.rest| < |s|
  {
    if HasPrefix(s, NIL) then Read([], s[|NIL|..])
    else if s == [] || s[0] != LPAREN then Unreadable
    else
      var first := Pair(s[1..]);
      if first.Unreadable? then Unreadable
      else
        var later := Pairs(first.rest);
        if later.Unreadable? then Unreadable else Read([first.value] + later.value, later.rest)
  }

  function NextParams(s: bytes): (r: Reading<seq<Param>>)
    ensures r.Read? ==> |r.rest| < |s|
  {
    if s == [] || s[0] != SP then Unreadable else Params(s[1..])
  }

  /** NIL, or a disposition with its parameters, behind a space. */
  function NextDisposition(s: bytes): (r: Reading<Option<Disposition>>)
    ensures r.Read? ==> |r.rest| < |s|
  {
    if HasPrefix(s, [SP] + NIL) then Read(None, s[|[SP] + NIL|..])
    else if !HasPrefix(s, [SP, LPAREN]) then Unreadable
    else
      var value := Text(s[2..]);
      if value.Unreadable? then Unreadable
      else
        var params := NextParams(value.rest);
        if params.Unreadable? || params.rest == [] || params.rest[0] != RPAREN then Unreadable
        else Read(Some(Disposition(value.value, params.value)), params.rest[1..])
  }

  function NextNumber(s: bytes): (r: Reading<nat>)
    ensures r.Read? ==> |r.rest| < |s|
  {
    if s == [] || s[0] != SP then Unreadable else Number(s[1..])
  }

  // ---- Parts ----

  /** Media type and subtype, parameters, identifier and description, encoding,
      size in octets and for text in lines, digest, disposition, language and
      location. */
  function LeafRest(s: bytes): (r: Reading<Described>)
    ensures r.Read? ==> |r.rest| < |s|
  {
    var mediaType := Text(s);
    if mediaType.Unreadable? then Unreadable else
    var subtype := Next(mediaType.rest);
    if subtype.Unreadable? then Unreadable else
    var params := NextParams(subtype.rest);
    if params.Unreadable? then Unreadable else
    var absent := Fixed(params.rest, [SP] + NIL + [SP] + NIL);
    if absent.Unreadable? then Unreadable else
    var encoding := Next(absent.rest);
    if encoding.Unreadable? then Unreadable else
    var size := NextNumber(encoding.rest);
    if size.Unreadable? then Unreadable else
    var text := FoldIs(mediaType.value, TEXT);
    var lines := if text then NextNumber(size.rest) else Read(0, size.rest);
    if lines.Unreadable? then Unreadable else
    var digest := Fixed(lines.rest, [SP] + NIL);
    if digest.Unreadable? then Unreadable else
    var disposition := NextDisposition(digest.rest);
    if disposition.Unreadable? then Unreadable else
    var end := Fixed(disposition.rest, NIL_NIL_END);
    if end.Unreadable? then Unreadable else
    Read(Leaf(mediaType.value, subtype.value, params.value, encoding.value, size.value,
              if text then Some(lines.value) else None, disposition.value), end.rest)
  }

  /** One part: a list that begins with a list holds other parts. */
  function Part(s: bytes): (r: Reading<Described>)
    ensures r.Read? ==> |r.rest| < |s|
    decreases |s|, 1
  {
    if s == [] || s[0] != LPAREN then Unreadable
    else if |s| > 1 && s[1] == LPAREN then
      var parts := Parts(s[1..]);
      if parts.Unreadable? then Unreadable else
      var subtype := Next(parts.rest);
      if subtype.Unreadable? then Unreadable else
      var params := NextParams(subtype.rest);
      if params.Unreadable? then Unreadable else
      var disposition := NextDisposition(params.rest);
      if disposition.Unreadable? then Unreadable else
      var end := Fixed(disposition.rest, NIL_NIL_END);
      if end.Unreadable? then Unreadable else
      Read(Container(parts.value, subtype.value, params.value, disposition.value), end.rest)
    else
      LeafRest(s[1..])
  }

  /** Parts up to the space behind the last. */
  function Parts(s: bytes): (r: Reading<seq<Described>>)
    ensures r.Read? ==> |r.rest| <= |s|
    decreases |s|, 2
  {
    if s == [] || s[0] != LPAREN then Read([], s)
    else
      var first := Part(s);
      if first.Unreadable? then Unreadable
      else
        var later := Parts(first.rest);
        if later.Unreadable? then Unreadable else Read([first.value] + later.value, later.rest)
  }

  // ---- The descriptor a text should read as ----

  function Describe(part: BodyPart): Described
    decreases part
  {
    match part.kind
    case MultipartPart => Container(DescribeAll(part.children), part.subtype, part.params, part.disposition)
    case _ =>
      Leaf(part.mediaType, part.subtype, part.params, if part.encoding == [] then SEVEN_BIT else part.encoding, part.size,
           if part.kind.TextPart? then Some(part.lines) else None, part.disposition)
  }

  function DescribeAll(parts: seq<BodyPart>): seq<Described>
    decreases parts
  {
    if parts == [] then [] else [Describe(parts[0])] + DescribeAll(parts[1..])
  }

  // ---- Reading what was printed ----

  lemma OneRead(first: byte, value: bytes, rest: bytes, later: bytes)
    requires QuotedRest(later) == Read(value, rest)
    ensures (first != BACKSLASH && first != QUOTE ==> QuotedRest([first] + later) == Read([first] + value, rest))
            && QuotedRest([BACKSLASH, first] + later) == Read([first] + value, rest)
  {
    var plain, escaped := [first] + later, [BACKSLASH, first] + later;
    assert plain[1..] == later && plain[0] == first;
    assert escaped[2..] == later && escaped[1] == first;
  }

  lemma {:induction false} EscapedReads(value: bytes, rest: bytes)
    ensures QuotedRest(Escape(value) + [QUOTE] + rest) == Read(value, rest)
    decreases |value|
  {
    hide QuotedRest;
    if value == [] {
      QuoteReads(rest);
    } else {
      var first, later := value[0], Escape(value[1..]) + [QUOTE] + rest;
      EscapedReads(value[1..], rest);
      OneRead(first, value[1..], rest, later);
      assert [first] + value[1..] == value;
      var one := if first == BACKSLASH || first == QUOTE then [BACKSLASH, first] else [first];
      assert one + Escape(value[1..]) + [QUOTE] + rest == one + later;
    }
  }

  lemma QuoteReads(rest: bytes)
    ensures QuotedRest(Escape([]) + [QUOTE] + rest) == Read([], rest)
  {
    assert Escape([]) + [QUOTE] + rest == [QUOTE] + rest;
    assert ([QUOTE] + rest)[1..] == rest;
  }

  lemma {:induction false} DigitsRead(digits: bytes, rest: bytes)
    requires AllDigits(digits) && (rest != [] ==> !IsDigit(rest[0]))
    ensures Digits(digits + rest) == |digits|
    decreases |digits|
  {
    if digits == [] {
      assert digits + rest == rest;
    } else {
      assert (digits + rest)[1..] == digits[1..] + rest;
      DigitsRead(digits[1..], rest);
    }
  }

  lemma NumberReads(n: nat, rest: bytes)
    requires rest != [] ==> !IsDigit(rest[0])
    ensures Number(Decimal(n) + rest) == Read(n, rest)
  {
    hide Decimal, Digits;
    DigitsRead(Decimal(n), rest);
    DecimalRoundTrip(n);
    var s := Decimal(n) + rest;
    assert s[..|Decimal(n)|] == Decimal(n) && s[|Decimal(n)|..] == rest;
  }

  lemma FixedReads(text: bytes, rest: bytes)
    ensures Fixed(text + rest, text) == Read((), rest)
  {
    assert (text + rest)[..|text|] == text && (text + rest)[|text|..] == rest;
  }

  lemma LiteralParts(digits: bytes, end: bytes, value: bytes, rest: bytes)
    ensures [LBRACE] + digits + end + value + rest == [LBRACE] + (digits + (end + (value + rest)))
    ensures (value + rest)[..|value|] == value && (value + rest)[|value|..] == rest
  {
  }

  lemma LiteralReads(value: bytes, rest: bytes)
    ensures Text([LBRACE] + Decimal(|value|) + [RBRACE, CR, LF] + value + rest) == Read(value, rest)
  {
    hide Decimal, Number, Fixed;
    var digits, end := Decimal(|value|), [RBRACE, CR, LF];
    LiteralParts(digits, end, value, rest);
    var later := digits + (end + (value + rest));
    assert ([LBRACE] + later)[1..] == later;
    NumberReads(|value|, end + (value + rest));
    FixedReads(end, value + rest);
  }

  lemma TextReads(value: bytes, rest: bytes)
    ensures Text(RenderString(value) + rest) == Read(value, rest)
    ensures RenderString(value) != [] && RenderString(value)[0] in {QUOTE, LBRACE}
  {
    hide Escape, Decimal, QuotedRest, Number;
    if Printable(value) {
      var s := RenderString(value) + rest;
      assert s[1..] == Escape(value) + [QUOTE] + rest;
      EscapedReads(value, rest);
    } else {
      LiteralReads(value, rest);
    }
  }

  lemma NextReads(value: bytes, rest: bytes)
    ensures Next([SP] + RenderString(value) + rest) == Read(value, rest)
  {
    hide RenderString, Text;
    TextReads(value, rest);
    assert ([SP] + RenderString(value) + rest)[1..] == RenderString(value) + rest;
  }

  lemma PairReads(p: Param, rest: bytes)
    ensures Pair(RenderString(p.name) + [SP] + RenderString(p.value) + rest) == Read(p, rest)
  {
    hide RenderString, Text, Next;
    var later := [SP] + RenderString(p.value) + rest;
    assert RenderString(p.name) + [SP] + RenderString(p.value) + rest == RenderString(p.name) + later;
    TextReads(p.name, later);
    NextReads(p.value, rest);
  }

  lemma {:induction false} PairsRead(params: seq<Param>, rest: bytes)
    ensures Pairs(RenderParamList(params, false) + [RPAREN] + rest) == Read(params, rest)
    decreases |params|
  {
    hide RenderString, Pair;
    var s := RenderParamList(params, false) + [RPAREN] + rest;
    if params == [] {
      assert s[1..] == rest;
    } else {
      var p, later := params[0], RenderParamList(params[1..], false) + [RPAREN] + rest;
      assert s[0] == SP && s[1..] == RenderString(p.name) + [SP] + RenderString(p.value) + later;
      PairReads(p, later);
      PairsRead(params[1..], rest);
      assert [p] + params[1..] == params;
    }
  }

  lemma OtherPrefix(s: bytes, prefix: bytes, i: nat)
    requires i < |prefix| && i < |s| && s[i] != prefix[i]
    ensures !HasPrefix(s, prefix)
  {
    assert |prefix| <= |s| ==> s[..|prefix|][i] == s[i];
  }

  /** What begins with a parenthesis is no NIL. */
  lemma NotNil(s: bytes)
    ensures !HasPrefix([LPAREN] + s, NIL) && !HasPrefix([SP, LPAREN] + s, [SP] + NIL)
    ensures HasPrefix([SP, LPAREN] + s, [SP, LPAREN]) && ([SP, LPAREN] + s)[2..] == s && ([LPAREN] + s)[1..] == s
  {
    var one, two := [LPAREN] + s, [SP, LPAREN] + s;
    OtherPrefix(one, NIL, 0);
    OtherPrefix(two, [SP] + NIL, 1);
    assert two[..2] == [SP, LPAREN];
  }

  lemma SomeParamsRead(params: seq<Param>, rest: bytes)
    requires params != []
    ensures Params(RenderParams(params) + rest) == Read(params, rest)
  {
    hide RenderString, Pair, Pairs, RenderParamList, HasPrefix;
    var p, tail := params[0], params[1..];
    var later := RenderParamList(tail, false) + [RPAREN] + rest;
    var inside := RenderString(p.name) + [SP] + RenderString(p.value) + later;
    ListStarts(params);
    assert RenderParams(params) + rest == [LPAREN] + inside;
    NotNil(inside);
    PairReads(p, later);
    PairsRead(tail, rest);
    assert [p] + tail == params;
  }

  lemma ParamsRead(params: seq<Param>, rest: bytes)
    ensures Params(RenderParams(params) + rest) == Read(params, rest)
  {
    hide Params;
    if params == [] {
      NoParamsRead(rest);
    } else {
      SomeParamsRead(params, rest);
    }
  }

  lemma NoParamsRead(rest: bytes)
    ensures Params(RenderParams([]) + rest) == Read([], rest)
  {
    FixedReads(NIL, rest);
  }

  lemma ListStarts(params: seq<Param>)
    requires params != []
    ensures RenderParamList(params, true)
            == RenderString(params[0].name) + [SP] + RenderString(params[0].value) + RenderParamList(params[1..], false)
  {
    hide RenderString;
    assert [] + RenderString(params[0].name) == RenderString(params[0].name);
  }

  lemma NextParamsRead(params: seq<Param>, rest: bytes)
    ensures NextParams([SP] + RenderParams(params) + rest) == Read(params, rest)
  {
    hide RenderParams, Params;
    ParamsRead(params, rest);
    assert ([SP] + RenderParams(params) + rest)[1..] == RenderParams(params) + rest;
  }

  lemma SomeDispositionReads(d: Disposition, rest: bytes)
    ensures NextDisposition([SP] + RenderDisposition(Some(d)) + rest) == Read(Some(d), rest)
  {
    hide RenderString, RenderParams, Text, NextParams, HasPrefix;
    var later := [SP] + RenderParams(d.params) + ([RPAREN] + rest);
    assert [SP] + RenderDisposition(Some(d)) + rest == [SP, LPAREN] + (RenderString(d.value) + later);
    NotNil(RenderString(d.value) + later);
    TextReads(d.value, later);
    NextParamsRead(d.params, [RPAREN] + rest);
    assert ([RPAREN] + rest)[1..] == rest;
  }

  lemma DispositionReads(disposition: Option<Disposition>, rest: bytes)
    ensures NextDisposition([SP] + RenderDisposition(disposition) + rest) == Read(disposition, rest)
  {
    match disposition
    case None => FixedReads([SP] + NIL, rest);
    case Some(d) => SomeDispositionReads(d, rest);
  }

  lemma NextNumberReads(n: nat, rest: bytes)
    requires rest != [] ==> !IsDigit(rest[0])
    ensures NextNumber([SP] + Decimal(n) + rest) == Read(n, rest)
  {
    hide Decimal, Number;
    NumberReads(n, rest);
    assert ([SP] + Decimal(n) + rest)[1..] == Decimal(n) + rest;
  }

  /** The text of a leaf after its opening parenthesis, field by field. */
  function LeafText(mediaType: bytes, subtype: bytes, params: bytes, encoding: bytes, size: bytes, lines: bytes, disposition: bytes, rest: bytes): bytes {
    mediaType + ([SP] + subtype + ([SP] + params + ([SP] + NIL + [SP] + NIL + ([SP] + encoding + ([SP] + size + (lines
      + ([SP] + NIL + ([SP] + disposition + (NIL_NIL_END + rest)))))))))
  }

  lemma LeafRegrouped(a: bytes, b: bytes, c: bytes, e: bytes, n: bytes, l: bytes, d: bytes, rest: bytes)
    ensures ([LPAREN] + a + [SP] + b + [SP] + c + NIL_NIL + e + ([SP] + n) + l + NIL_ONCE + d + NIL_NIL_END) + rest
            == [LPAREN] + LeafText(a, b, c, e, n, l, d, rest)
  {
    hide NIL_NIL_END, NIL;
    var x := l + ([SP] + NIL + ([SP] + d + (NIL_NIL_END + rest)));
    assert l + NIL_ONCE + d + NIL_NIL_END + rest == x;
    var y := [SP] + NIL + [SP] + NIL + ([SP] + e + ([SP] + n + x));
    assert NIL_NIL + e + ([SP] + n) + x == y;
    assert ([LPAREN] + a + [SP] + b + [SP] + c + NIL_NIL + e + ([SP] + n) + l + NIL_ONCE + d + NIL_NIL_END) + rest
        == [LPAREN] + a + [SP] + b + [SP] + c + (NIL_NIL + e + ([SP] + n) + (l + NIL_ONCE + d + NIL_NIL_END + rest));
    assert [LPAREN] + a + [SP] + b + [SP] + c + y == [LPAREN] + (a + ([SP] + b + ([SP] + c + y)));
  }

  /** The media type says whether a leaf is text. */
  ghost predicate LeafKind(part: BodyPart) {
    !part.kind.MultipartPart? && (part.kind.TextPart? <==> FoldIs(part.mediaType, TEXT))
  }

  lemma LinesRead(part: BodyPart, rest: bytes)
    requires rest != [] ==> rest[0] == SP
    ensures var s := RenderLines(part) + rest;
            && (part.kind.TextPart? ==> NextNumber(s) == Read(part.lines, rest))
            && (!part.kind.TextPart? ==> s == rest)
            && (s != [] ==> s[0] == SP)
  {
    hide Decimal, NextNumber;
    if part.kind.TextPart? {
      NextNumberReads(part.lines, rest);
    }
  }

  lemma LeafReads(part: BodyPart, rest: bytes)
    requires LeafKind(part)
    ensures var s := LeafText(RenderString(part.mediaType), RenderString(part.subtype), RenderParams(part.params),
                              RenderString(Encoding(part)), Decimal(part.size), RenderLines(part), RenderDisposition(part.disposition), rest);
            LeafRest(s) == Read(Describe(part), rest)
  {
    hide RenderString, RenderParams, RenderDisposition, RenderLines, Decimal, Text, Next, NextParams, NextNumber, NextDisposition, Fixed,
         FoldIs, NIL_NIL_END;
    var t7 := NIL_NIL_END + rest;
    var t6 := [SP] + RenderDisposition(part.disposition) + t7;
    var t5 := [SP] + NIL + t6;
    var t4 := RenderLines(part) + t5;
    var t3 := [SP] + Decimal(part.size) + t4;
    var t2 := [SP] + RenderString(Encoding(part)) + t3;
    var t1 := [SP] + NIL + [SP] + NIL + t2;
    var t0 := [SP] + RenderParams(part.params) + t1;
    TextReads(part.mediaType, [SP] + RenderString(part.subtype) + t0);
    NextReads(part.subtype, t0);
    NextParamsRead(part.params, t1);
    FixedReads([SP] + NIL + [SP] + NIL, t2);
    NextReads(Encoding(part), t3);
    LinesRead(part, t5);
    NextNumberReads(part.size, t4);
    FixedReads([SP] + NIL, t6);
    DispositionReads(part.disposition, t7);
    FixedReads(NIL_NIL_END, rest);
  }

  /** The text of a container after its parts. */
  function ContainerText(subtype: bytes, params: bytes, disposition: bytes, rest: bytes): bytes {
    [SP] + subtype + ([SP] + params + ([SP] + disposition + (NIL_NIL_END + rest)))
  }

  lemma ContainerRegrouped(a: bytes, b: bytes, c: bytes, d: bytes, rest: bytes)
    ensures ([LPAREN] + a + [SP] + b + [SP] + c + [SP] + d + NIL_NIL_END) + rest == [LPAREN] + (a + ContainerText(b, c, d, rest))
  {
    hide NIL_NIL_END;
    assert ([LPAREN] + a + [SP] + b + [SP] + c + [SP] + d + NIL_NIL_END) + rest
        == [LPAREN] + a + ([SP] + b + ([SP] + c + ([SP] + d + (NIL_NIL_END + rest))));
  }

  lemma KindsOfTree(part: BodyPart, depth: nat)
    requires ValidTree(part, depth)
    ensures if part.kind.MultipartPart? then part.children != [] && forall c :: c in part.children ==> ValidTree(c, depth + 1)
            else LeafKind(part)
  {
    hide FoldIs, KnownEncoding, ValidValue, ValidParams;
  }

  lemma StartsWithList(part: BodyPart)
    ensures Render(part) != [] && Render(part)[0] == LPAREN
  {
    hide RenderString, RenderParams, RenderDisposition, RenderLines, RenderAll;
  }

  lemma LeafStarts(part: BodyPart, rest: bytes)
    requires !part.kind.MultipartPart?
    ensures var s := Render(part) + rest;
            |s| > 1 && s[0] == LPAREN && s[1] != LPAREN
            && s[1..] == LeafText(RenderString(part.mediaType), RenderString(part.subtype), RenderParams(part.params),
                                  RenderString(Encoding(part)), Decimal(part.size), RenderLines(part), RenderDisposition(part.disposition), rest)
  {
    hide RenderString, RenderParams, RenderDisposition, RenderLines, Decimal, NIL_NIL_END;
    TextReads(part.mediaType, []);
    LeafRegrouped(RenderString(part.mediaType), RenderString(part.subtype), RenderParams(part.params),
                  RenderString(Encoding(part)), Decimal(part.size), RenderLines(part), RenderDisposition(part.disposition), rest);
  }

  lemma ContainerStarts(part: BodyPart, rest: bytes)
    requires part.kind.MultipartPart? && part.children != []
    ensures var s := Render(part) + rest;
            |s| > 1 && s[0] == LPAREN && s[1] == LPAREN
            && s[1..] == RenderAll(part.children)
                         + ContainerText(RenderString(part.subtype), RenderParams(part.params), RenderDisposition(part.disposition), rest)
  {
    hide RenderString, RenderParams, RenderDisposition, ContainerText, NIL_NIL_END;
    ContainerRegrouped(RenderAll(part.children), RenderString(part.subtype), RenderParams(part.params), RenderDisposition(part.disposition), rest);
    StartsWithList(part.children[0]);
    hide Render;
    assert RenderAll(part.children)[0] == LPAREN;
  }

  /** What the fixture prints for a valid descriptor reads as what was described:
      every field in its place, strings whatever octets they hold, parts in
      their order, and nothing of what follows. */
  lemma {:induction false} RenderReads(part: BodyPart, depth: nat, rest: bytes)
    requires ValidTree(part, depth)
    ensures Part(Render(part) + rest) == Read(Describe(part), rest)
    decreases part, 1
  {
    hide Render, ValidTree, LeafText, ContainerText, LeafRest, RenderString, RenderParams, RenderDisposition, Next, NextParams,
         NextDisposition, Fixed, NIL_NIL_END;
    KindsOfTree(part, depth);
    if part.kind.MultipartPart? {
      var tail := ContainerText(RenderString(part.subtype), RenderParams(part.params), RenderDisposition(part.disposition), rest);
      ContainerStarts(part, rest);
      ContainerReads(part, rest);
      PartsRead(part.children, depth + 1, tail);
    } else {
      LeafStarts(part, rest);
      LeafReads(part, rest);
    }
  }

  lemma ContainerReads(part: BodyPart, rest: bytes)
    ensures var tail := ContainerText(RenderString(part.subtype), RenderParams(part.params), RenderDisposition(part.disposition), rest);
            && tail != [] && tail[0] == SP
            && var subtype := Next(tail);
               && subtype.Read? && subtype.value == part.subtype
               && var params := NextParams(subtype.rest);
                  && params.Read? && params.value == part.params
                  && var disposition := NextDisposition(params.rest);
                     && disposition.Read? && disposition.value == part.disposition
                     && Fixed(disposition.rest, NIL_NIL_END) == Read((), rest)
  {
    hide RenderString, RenderParams, RenderDisposition, Next, NextParams, NextDisposition, Fixed, NIL_NIL_END;
    var t2 := NIL_NIL_END + rest;
    var t1 := [SP] + RenderDisposition(part.disposition) + t2;
    var t0 := [SP] + RenderParams(part.params) + t1;
    NextReads(part.subtype, t0);
    NextParamsRead(part.params, t1);
    DispositionReads(part.disposition, t2);
    FixedReads(NIL_NIL_END, rest);
  }

  /** One part before others. */
  lemma FirstPartRead(part: BodyPart, parts: seq<BodyPart>, rest: bytes)
    requires Part(Render(part) + (RenderAll(parts) + rest)) == Read(Describe(part), RenderAll(parts) + rest)
    requires Parts(RenderAll(parts) + rest) == Read(DescribeAll(parts), rest)
    ensures Parts(Render(part) + RenderAll(parts) + rest) == Read([Describe(part)] + DescribeAll(parts), rest)
  {
    StartsWithList(part);
    hide Render, Describe, Part, RenderAll, DescribeAll;
    var s := Render(part) + (RenderAll(parts) + rest);
    assert Render(part) + RenderAll(parts) + rest == s && s[0] == LPAREN;
  }

  lemma NoPartsRead(rest: bytes)
    requires rest != [] && rest[0] != LPAREN
    ensures Parts(RenderAll([]) + rest) == Read([], rest)
  {
    assert RenderAll([]) + rest == rest;
  }

  lemma {:induction false} PartsRead(parts: seq<BodyPart>, depth: nat, rest: bytes)
    requires (forall c :: c in parts ==> ValidTree(c, depth)) && rest != [] && rest[0] != LPAREN
    ensures Parts(RenderAll(parts) + rest) == Read(DescribeAll(parts), rest)
    decreases parts, 0
  {
    hide Render, ValidTree, Describe, Part, Parts;
    if parts == [] {
      NoPartsRead(rest);
    } else {
      RenderReads(parts[0], depth, RenderAll(parts[1..]) + rest);
      PartsRead(parts[1..], depth, rest);
      FirstPartRead(parts[0], parts[1..], rest);
    }
  }
}
