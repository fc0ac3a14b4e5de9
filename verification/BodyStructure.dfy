/** Typed BODYSTRUCTURE descriptors: their validation and the text they render
    to (internal/testkit/bodystructure.go:23-311, 404-459). */
module BodyStructure {
  import opened Octets
  import opened Sequences
  import opened Wrappers
  import Utf8

  const MAX_NODES: nat := 128
  const MAX_TREE_DEPTH: nat := 16
  const MAX_PARAMS: nat := 8
  const MAX_VALUE: nat := 512

  const NIL: bytes := [0x4e, 0x49, 0x4c]
  const TEXT: bytes := [0x54, 0x45, 0x58, 0x54]
  const MULTIPART: bytes := [0x4d, 0x55, 0x4c, 0x54, 0x49, 0x50, 0x41, 0x52, 0x54]
  const MESSAGE: bytes := [0x4d, 0x45, 0x53, 0x53, 0x41, 0x47, 0x45]
  const SEVEN_BIT: bytes := [0x37, 0x62, 0x69, 0x74]
  const EIGHT_BIT: bytes := [0x38, 0x62, 0x69, 0x74]
  const BINARY: bytes := [0x62, 0x69, 0x6e, 0x61, 0x72, 0x79]
  const BASE64: bytes := [0x62, 0x61, 0x73, 0x65, 0x36, 0x34]
  const QUOTED_PRINTABLE: bytes :=
    [0x71, 0x75, 0x6f, 0x74, 0x65, 0x64, 0x2d, 0x70, 0x72, 0x69, 0x6e, 0x74, 0x61, 0x62, 0x6c, 0x65]

  datatype PartKind = TextPart | BasicPart | MultipartPart

  datatype Param = Param(name: bytes, value: bytes)

  datatype Disposition = Disposition(value: bytes, params: seq<Param>)

  /** One node of a synthetic structure. size and lines are uint32. */
  datatype BodyPart = BodyPart(
    kind: PartKind,
    mediaType: bytes,
    subtype: bytes,
    params: seq<Param>,
    encoding: bytes,
    size: nat,
    lines: nat,
    disposition: Option<Disposition>,
    children: seq<BodyPart>)

  // ---- Validation ----

  /** Whether the lower case of name is the ASCII word target. The two-octet
      letter U+0130 becomes an ASCII i. */
  predicate LowerIs(name: bytes, target: bytes)
    decreases |name|
  {
    if target == [] then name == []
    else
      || (|name| >= 1 && Upper(name[0]) == Upper(target[0]) && LowerIs(name[1..], target[1..]))
      || (|name| >= 2 && name[0] == 0xc4 && name[1] == 0xb0 && target[0] == 0x69 && LowerIs(name[2..], target[1..]))
  }

  predicate ValidValue(value: bytes, optional: bool) {
    && (value != [] || optional)
    && |value| <= MAX_VALUE
    && Utf8.Valid(value) && CR !in value && LF !in value && NUL !in value
  }

  predicate ValidParams(params: seq<Param>) {
    forall p :: p in params ==> ValidValue(p.name, false) && ValidValue(p.value, false)
  }

  predicate KnownEncoding(encoding: bytes) {
    || LowerIs(encoding, SEVEN_BIT) || LowerIs(encoding, EIGHT_BIT) || LowerIs(encoding, BINARY)
    || LowerIs(encoding, BASE64) || LowerIs(encoding, QUOTED_PRINTABLE)
  }

  function DispositionParams(part: BodyPart): nat {
    if part.disposition.Some? then |part.disposition.value.params| else 0
  }

  predicate ValidShape(part: BodyPart) {
    match part.kind
    case MultipartPart =>
      && (part.mediaType == [] || FoldIs(part.mediaType, MULTIPART))
      && part.children != [] && part.encoding == [] && part.size == 0 && part.lines == 0
    case _ =>
      && part.children == []
      && (part.encoding == [] || KnownEncoding(part.encoding))
      && var text := FoldIs(part.mediaType, TEXT);
         if part.kind.TextPart? then text
         else part.mediaType != [] && !text && !FoldIs(part.mediaType, MULTIPART)
              && !FoldIs(part.mediaType, MESSAGE) && part.lines == 0
  }

  /** The checks on the fields of one node. */
  predicate ValidFields(part: BodyPart) {
    && |part.params| + DispositionParams(part) <= MAX_PARAMS
    && ValidValue(part.subtype, false) && ValidParams(part.params)
    && (part.disposition.Some? ==>
          ValidValue(part.disposition.value.value, false) && ValidParams(part.disposition.value.params))
    && ValidValue(part.mediaType, true) && ValidValue(part.encoding, true)
    && ValidShape(part)
    && part.size <= MAX_UINT32 && part.lines <= MAX_UINT32
  }

  /** Every node at its depth in the tree passes its checks. */
  predicate ValidTree(part: BodyPart, depth: nat)
    decreases part
  {
    depth <= MAX_TREE_DEPTH && ValidFields(part) && forall c :: c in part.children ==> ValidTree(c, depth + 1)
  }

  function Nodes(part: BodyPart): nat
    decreases part
  {
    1 + NodesOf(part.children)
  }

  function NodesOf(parts: seq<BodyPart>): nat
    decreases parts
  {
    if parts == [] then 0 else Nodes(parts[0]) + NodesOf(parts[1..])
  }

  // ---- Rendering ----

  predicate Printable(value: bytes) {
    forall i :: 0 <= i < |value| ==> 0x20 <= value[i] <= 0x7e
  }

  function Escape(value: bytes): bytes {
    if value == [] then []
    else (if value[0] == BACKSLASH || value[0] == QUOTE then [BACKSLASH, value[0]] else [value[0]]) + Escape(value[1..])
  }

  function RenderString(value: bytes): bytes {
    if Printable(value) then [QUOTE] + Escape(value) + [QUOTE]
    else [LBRACE] + Decimal(|value|) + [RBRACE, CR, LF] + value
  }

  function RenderParamList(params: seq<Param>, first: bool): bytes {
    if params == [] then []
    else
      (if first then [] else [SP]) + RenderString(params[0].name) + [SP] + RenderString(params[0].value)
      + RenderParamList(params[1..], false)
  }

  function RenderParams(params: seq<Param>): bytes {
    if params == [] then NIL else [LPAREN] + RenderParamList(params, true) + [RPAREN]
  }

  function RenderDisposition(disposition: Option<Disposition>): bytes {
    match disposition
    case None => NIL
    case Some(d) => [LPAREN] + RenderString(d.value) + [SP] + RenderParams(d.params) + [RPAREN]
  }

  function Encoding(part: BodyPart): bytes {
    if part.encoding == [] then SEVEN_BIT else part.encoding
  }

  function RenderLines(part: BodyPart): bytes {
    if part.kind.TextPart? then [SP] + Decimal(part.lines) else []
  }

  // " NIL NIL)", " NIL NIL " and " NIL "
  const NIL_NIL_END: bytes := [SP] + NIL + [SP] + NIL + [RPAREN]
  const NIL_NIL: bytes := [SP] + NIL + [SP] + NIL + [SP]
  const NIL_ONCE: bytes := [SP] + NIL + [SP]

  /** The extended BODYSTRUCTURE text of a part. */
  function Render(part: BodyPart): bytes
    decreases part
  {
    if part.kind.MultipartPart? then
      [LPAREN] + RenderAll(part.children)
      + [SP] + RenderString(part.subtype)
      + [SP] + RenderParams(part.params)
      + [SP] + RenderDisposition(part.disposition)
      + NIL_NIL_END
    else
      [LPAREN] + RenderString(part.mediaType)
      + [SP] + RenderString(part.subtype)
      + [SP] + RenderParams(part.params)
      + NIL_NIL
      + RenderString(Encoding(part))
      + ([SP] + Decimal(part.size))
      + RenderLines(part)
      + NIL_ONCE
      + RenderDisposition(part.disposition)
      + NIL_NIL_END
  }

  function RenderAll(parts: seq<BodyPart>): bytes
    decreases parts
  {
    if parts == [] then [] else Render(parts[0]) + RenderAll(parts[1..])
  }

  // ---- The fixture's own procedures ----

  /** Checks one node, then each child, counting every node it reaches. */
  method ValidateBodyPart(part: BodyPart, depth: nat, counted: nat) returns (ok: bool, nodes: nat)
    requires counted <= MAX_NODES
    ensures ok <==> ValidTree(part, depth) && counted + Nodes(part) <= MAX_NODES
    ensures ok ==> nodes == counted + Nodes(part)
    decreases part
  {
    hide ValidFields;
    nodes := counted + 1;
    if nodes > MAX_NODES || depth > MAX_TREE_DEPTH || !ValidFields(part) {
      return false, nodes;
    }
    assert part.children[0..] == part.children;
    var i := 0;
    while i < |part.children|
      invariant i <= |part.children| && nodes <= MAX_NODES
      invariant nodes + NodesOf(part.children[i..]) == counted + Nodes(part)
      invariant forall c :: c in part.children[..i] ==> ValidTree(c, depth + 1)
    {
      var child := part.children[i];
      assert part.children[i..][1..] == part.children[i + 1..];
      assert part.children[..i + 1] == part.children[..i] + [child];
      ok, nodes := ValidateBodyPart(child, depth + 1, nodes);
      if !ok {
        assert child in part.children;
        return false, nodes;
      }
      i := i + 1;
    }
    assert part.children[..i] == part.children;
    ok := true;
  }

  /** The growing text that rendering appends to. */
  class Builder {
    var text: bytes

    constructor ()
      ensures text == []
    {
      text := [];
    }

    /** Appends piece; done is what was appended since before. */
    method Write(piece: bytes, ghost before: bytes, ghost done: bytes)
      requires text == before + done
      modifies this
      ensures text == old(text) + piece == before + (done + piece)
    {
      Assoc(before, done, piece);
      text := text + piece;
    }

    /** Printable ASCII as a quoted string, anything else as a literal. */
    method RenderBodyString(value: bytes, ghost before: bytes, ghost done: bytes)
      requires text == before + done
      modifies this
      ensures text == old(text) + RenderString(value) == before + (done + RenderString(value))
    {
      hide Escape, Decimal;
      Assoc(before, done, RenderString(value));
      ghost var start := text;
      var i := 0;
      while i < |value|
        invariant i <= |value| && text == start
        invariant forall j :: 0 <= j < i ==> 0x20 <= value[j] <= 0x7e
      {
        if value[i] < 0x20 || value[i] > 0x7e {
          Write([LBRACE] + Decimal(|value|) + [RBRACE, CR, LF] + value, before, done);
          return;
        }
        i := i + 1;
      }
      Write([QUOTE], start, []);
      Write(Escape(value), start, [] + [QUOTE]);
      Write([QUOTE], start, [] + [QUOTE] + Escape(value));
      assert [] + [QUOTE] == [QUOTE];
    }

    method RenderBodyParams(params: seq<Param>, ghost before: bytes, ghost done: bytes)
      requires text == before + done
      modifies this
      ensures text == old(text) + RenderParams(params) == before + (done + RenderParams(params))
    {
      hide RenderString;
      ghost var start := text;
      Assoc(before, done, RenderParams(params));
      if |params| == 0 {
        Write(NIL, before, done);
        return;
      }
      Write([LPAREN], start, []);
      ghost var listed := [] + [LPAREN];
      var i := 0;
      assert params[0..] == params;
      while i < |params|
        invariant i <= |params| && text == start + listed
        invariant listed + RenderParamList(params[i..], i == 0) == [LPAREN] + RenderParamList(params, true)
      {
        assert params[i..][1..] == params[i + 1..];
        ghost var pair := if i == 0 then [] else [SP];
        if i > 0 {
          Write([SP], start, listed);
        } else {
          Assoc(start, listed, []);
        }
        RenderBodyString(params[i].name, start, listed + pair);
        Write([SP], start, listed + pair + RenderString(params[i].name));
        RenderBodyString(params[i].value, start, listed + pair + RenderString(params[i].name) + [SP]);
        PairEnds(listed, pair, RenderString(params[i].name), RenderString(params[i].value),
                 RenderParamList(params[i + 1..], false));
        listed := listed + pair + RenderString(params[i].name) + [SP] + RenderString(params[i].value);
        i := i + 1;
      }
      assert listed == [LPAREN] + RenderParamList(params, true) by {
        assert listed + [] == listed;
      }
      Write([RPAREN], start, listed);
    }

    lemma PairEnds(listed: bytes, pair: bytes, name: bytes, value: bytes, rest: bytes)
      ensures listed + pair + name + [SP] + value + rest == listed + (pair + name + [SP] + value + rest)
    {
    }

    method RenderBodyDisposition(disposition: Option<Disposition>, ghost before: bytes, ghost done: bytes)
      requires text == before + done
      modifies this
      ensures text == old(text) + RenderDisposition(disposition) == before + (done + RenderDisposition(disposition))
    {
      hide RenderString, RenderParams;
      ghost var start := text;
      Assoc(before, done, RenderDisposition(disposition));
      if disposition.None? {
        Write(NIL, before, done);
        return;
      }
      var d := disposition.value;
      Write([LPAREN], start, []);
      ghost var r := [LPAREN];
      assert [] + [LPAREN] == r;
      RenderBodyString(d.value, start, r);
      Write([SP], start, r + RenderString(d.value));
      RenderBodyParams(d.params, start, r + RenderString(d.value) + [SP]);
      Write([RPAREN], start, r + RenderString(d.value) + [SP] + RenderParams(d.params));
    }

    method RenderBodyPart(part: BodyPart)
      modifies this
      ensures text == old(text) + Render(part)
      decreases part
    {
      hide RenderString, RenderParams, RenderDisposition;
      ghost var before := text;
      Write([LPAREN], before, []);
      ghost var r := [LPAREN];
      assert [] + [LPAREN] == r;
      if part.kind.MultipartPart? {
        RenderChildren(part);
        Assoc(before, r, RenderAll(part.children));
        r := r + RenderAll(part.children);
        Write([SP], before, r);
        r := r + [SP];
        RenderBodyString(part.subtype, before, r);
        r := r + RenderString(part.subtype);
        Write([SP], before, r);
        r := r + [SP];
        RenderBodyParams(part.params, before, r);
        r := r + RenderParams(part.params);
        Write([SP], before, r);
        r := r + [SP];
        RenderBodyDisposition(part.disposition, before, r);
        Write(NIL_NIL_END, before, r + RenderDisposition(part.disposition));
      } else {
        RenderLeaf(part, before);
      }
    }

    /** The rest of a part without children. */
    method RenderLeaf(part: BodyPart, ghost before: bytes)
      requires !part.kind.MultipartPart? && text == before + [LPAREN]
      modifies this
      ensures text == before + Render(part)
    {
      hide RenderString, RenderParams, RenderDisposition, Decimal;
      ghost var r := [LPAREN];
      RenderBodyString(part.mediaType, before, r);
      r := r + RenderString(part.mediaType);
      Write([SP], before, r);
      r := r + [SP];
      RenderBodyString(part.subtype, before, r);
      r := r + RenderString(part.subtype);
      Write([SP], before, r);
      r := r + [SP];
      RenderBodyParams(part.params, before, r);
      r := r + RenderParams(part.params);
      Write(NIL_NIL, before, r);
      r := r + NIL_NIL;
      RenderBodyString(Encoding(part), before, r);
      r := r + RenderString(Encoding(part));
      Write([SP] + Decimal(part.size), before, r);
      r := r + ([SP] + Decimal(part.size));
      if part.kind.TextPart? {
        Write([SP] + Decimal(part.lines), before, r);
      } else {
        Assoc(before, r, []);
      }
      r := r + RenderLines(part);
      Write(NIL_ONCE, before, r);
      r := r + NIL_ONCE;
      RenderBodyDisposition(part.disposition, before, r);
      Write(NIL_NIL_END, before, r + RenderDisposition(part.disposition));
    }

    method RenderChildren(part: BodyPart)
      modifies this
      ensures text == old(text) + RenderAll(part.children)
      decreases part, 0
    {
      ghost var start := text;
      ghost var done: bytes := [];
      assert start + done == start;
      var i := 0;
      assert part.children[0..] == part.children;
      while i < |part.children|
        invariant i <= |part.children| && text == start + done
        invariant done + RenderAll(part.children[i..]) == RenderAll(part.children)
      {
        assert part.children[i..][1..] == part.children[i + 1..];
        RenderBodyPart(part.children[i]);
        Assoc(start, done, Render(part.children[i]));
        Assoc(done, Render(part.children[i]), RenderAll(part.children[i + 1..]));
        done := done + Render(part.children[i]);
        i := i + 1;
      }
      assert part.children[i..] == [];
      assert done + [] == done;
    }
  }
}
