/** How one SEARCH response line is read: its class, its trailing literal, its
    numbers, and the name-value pairs and number sets of an ESEARCH
    (bridge/imapclient.go:1504-1831). */
module SearchWire {
  import opened Octets
  import opened Wrappers
  import opened QuarantineLexis

  const ALL: bytes := [0x41, 0x4c, 0x4c]
  const MODSEQ: bytes := [0x4d, 0x4f, 0x44, 0x53, 0x45, 0x51]
  const ID: bytes := [0x49, 0x44]
  const ENABLED: bytes := [0x45, 0x4e, 0x41, 0x42, 0x4c, 0x45, 0x44]
  const NAMESPACE: bytes := [0x4e, 0x41, 0x4d, 0x45, 0x53, 0x50, 0x41, 0x43, 0x45]
  const LIST: bytes := [0x4c, 0x49, 0x53, 0x54]
  const STATUS: bytes := [0x53, 0x54, 0x41, 0x54, 0x55, 0x53]
  const SORT: bytes := [0x53, 0x4f, 0x52, 0x54]
  const THREAD: bytes := [0x54, 0x48, 0x52, 0x45, 0x41, 0x44]
  const METADATA: bytes := [0x4d, 0x45, 0x54, 0x41, 0x44, 0x41, 0x54, 0x41]
  const QUOTA: bytes := [0x51, 0x55, 0x4f, 0x54, 0x41]
  const QUOTAROOT: bytes := [0x51, 0x55, 0x4f, 0x54, 0x41, 0x52, 0x4f, 0x4f, 0x54]
  const MYRIGHTS: bytes := [0x4d, 0x59, 0x52, 0x49, 0x47, 0x48, 0x54, 0x53]
  const ACL: bytes := [0x41, 0x43, 0x4c]

  const MAX_UINT64: nat := 0xffff_ffff_ffff_ffff

  /** A decimal number that fits, leading zeros allowed. */
  function ParseUint(s: bytes, max: nat): Option<nat> {
    if s != [] && AllDigits(s) && DecimalValue(s) <= max then Some(DecimalValue(s)) else None
  }

  /** An atom character as the client library reads it: no list, quote or
      literal delimiter, wildcard, or control. */
  predicate WireAtomChar(b: byte) {
    && b !in {LPAREN, RPAREN, LBRACE, SP, PERCENT, STAR, QUOTE, BACKSLASH, RBRACKET}
    && b >= 0x20 && !(0x7f <= b < 0xa0)
  }

  /** Splits the leading atom from s. */
  function SpanAtom(s: bytes): (r: (bytes, bytes))
    ensures s == r.0 + r.1
    ensures forall i :: 0 <= i < |r.0| ==> WireAtomChar(r.0[i])
    ensures r.1 != [] ==> !WireAtomChar(r.1[0])
  {
    if s == [] || !WireAtomChar(s[0]) then ([], s)
    else
      var (atom, rest) := SpanAtom(s[1..]);
      ([s[0]] + atom, rest)
  }

  /** The scan for the end of the leading atom. */
  method ESearchAtom(s: bytes) returns (atom: bytes, rest: bytes)
    ensures (atom, rest) == SpanAtom(s)
  {
    hide WireAtomChar;
    var index := 0;
    while index < |s| && WireAtomChar(s[index])
      invariant index <= |s| && forall i :: 0 <= i < index ==> WireAtomChar(s[i])
    {
      index := index + 1;
    }
    SpanIs(s, index);
    return s[..index], s[index..];
  }

  lemma {:induction false} SpanIs(s: bytes, k: nat)
    requires k <= |s| && forall i :: 0 <= i < k ==> WireAtomChar(s[i])
    requires k < |s| ==> !WireAtomChar(s[k])
    ensures SpanAtom(s) == (s[..k], s[k..])
    decreases |s|
  {
    hide WireAtomChar;
    if k > 0 {
      SpanIs(s[1..], k - 1);
      assert [s[0]] + s[1..][..k - 1] == s[..k] && s[1..][k - 1..] == s[k..];
    } else {
      assert s[..0] == [] && s[0..] == s;
    }
  }

  function TrimPrefix(s: bytes, b: byte): bytes {
    if s != [] && s[0] == b then s[1..] else s
  }

  function TrimSuffix(s: bytes, b: byte): bytes {
    if s != [] && s[|s| - 1] == b then s[..|s| - 1] else s
  }

  // ---- White space ----

  /** The length of the Unicode white space that s starts with, or 0. */
  function SpaceAt(s: bytes): (k: nat)
    ensures k <= |s| && k <= 3
  {
    if s == [] then 0
    else if 0x09 <= s[0] <= 0x0d || s[0] == SP then 1
    else if |s| >= 2 && s[0] == 0xc2 && (s[1] == 0x85 || s[1] == 0xa0) then 2
    else if |s| >= 3 && WideSpace(s[0], s[1], s[2]) then 3
    else 0
  }

  predicate WideSpace(a: byte, b: byte, c: byte) {
    || (a == 0xe1 && b == 0x9a && c == 0x80)
    || (a == 0xe2 && b == 0x80 && (0x80 <= c <= 0x8a || c == 0xa8 || c == 0xa9 || c == 0xaf))
    || (a == 0xe2 && b == 0x81 && c == 0x9f)
    || (a == 0xe3 && b == 0x80 && c == 0x80)
  }

  /** The length of the white space that s ends with, or 0. */
  function SpaceBefore(s: bytes): (k: nat)
    ensures k <= |s| && k <= 3
  {
    if s != [] && SpaceAt(s[|s| - 1..]) == 1 then 1
    else if |s| >= 2 && SpaceAt(s[|s| - 2..]) == 2 then 2
    else if |s| >= 3 && SpaceAt(s[|s| - 3..]) == 3 then 3
    else 0
  }

  function TrimLeft(s: bytes): bytes
    decreases |s|
  {
    if SpaceAt(s) > 0 then TrimLeft(s[SpaceAt(s)..]) else s
  }

  function TrimRight(s: bytes): bytes
    decreases |s|
  {
    if SpaceBefore(s) > 0 then TrimRight(s[..|s| - SpaceBefore(s)]) else s
  }

  /** The words of s between white space; word is the one in progress. */
  function Fields(s: bytes, word: bytes): seq<bytes>
    decreases |s|
  {
    var done := if word == [] then [] else [word];
    if s == [] then done
    else if SpaceAt(s) > 0 then done + Fields(s[SpaceAt(s)..], [])
    else Fields(s[1..], word + [s[0]])
  }

  // ---- Classes of lines ----

  datatype LineKind = Unclassified | TextLine | DataLine | SearchKind | ESearchKind

  /** Text after a status name, whose response code closes on its own line. */
  function StatusKind(rest: bytes): LineKind {
    if |rest| >= 2 && rest[0] == SP && rest[1] == LBRACKET && RBRACKET !in rest then Unclassified else TextLine
  }

  predicate DataName(name: bytes) {
    || UpperIs(name, ID) || UpperIs(name, CAPABILITY) || UpperIs(name, ENABLED) || UpperIs(name, NAMESPACE)
    || UpperIs(name, FLAGS) || UpperIs(name, EXISTS) || UpperIs(name, RECENT) || UpperIs(name, LIST)
    || UpperIs(name, STATUS) || UpperIs(name, FETCH) || UpperIs(name, EXPUNGE) || UpperIs(name, SORT)
    || UpperIs(name, THREAD) || UpperIs(name, METADATA) || UpperIs(name, QUOTA) || UpperIs(name, QUOTAROOT)
    || UpperIs(name, MYRIGHTS) || UpperIs(name, ACL)
  }

  predicate StatusName(name: bytes) {
    UpperIs(name, OK) || UpperIs(name, PREAUTH) || UpperIs(name, NO) || UpperIs(name, BAD) || UpperIs(name, BYE)
  }

  function NameKind(untagged: bool, name: bytes, rest: bytes): (LineKind, bytes) {
    if name == [] then (Unclassified, [])
    else if !untagged || StatusName(name) then (StatusKind(rest), [])
    else if UpperIs(name, SEARCH) then (SearchKind, rest)
    else if UpperIs(name, ESEARCH) then (ESearchKind, rest)
    else if DataName(name) then (DataLine, [])
    else (Unclassified, [])
  }

  /** Classifies the first line of a response, with the text after a SEARCH or
      ESEARCH name. */
  function Classify(line: bytes): (LineKind, bytes) {
    if line != [] && line[0] == PLUS then (TextLine, [])
    else
      var untagged := line != [] && line[0] == STAR;
      var tagged := SpanAtom(line);
      if !untagged && tagged.0 == [] then (Unclassified, [])
      else
        var rest := if untagged then line[1..] else tagged.1;
        if rest == [] || rest[0] != SP then (Unclassified, [])
        else
          var (name, after) := SpanAtom(rest[1..]);
          if untagged && name != [] && IsDigit(name[0]) then
            if ParseUint(name, MAX_UINT32).None? || after == [] || after[0] != SP then (Unclassified, [])
            else
              var (kind, tail) := SpanAtom(after[1..]);
              NameKind(true, kind, tail)
          else
            NameKind(untagged, name, after)
  }

  // ---- Trailing literals ----

  /** Whether a scan of the line from index ends inside a quoted string, and
      the last unquoted opening brace it meets. */
  function Braces(line: bytes, index: nat, quoted: bool, opening: Option<nat>): (r: (bool, Option<nat>))
    requires opening.Some? ==> opening.value < |line| && line[opening.value] == LBRACE
    ensures r.1.Some? ==> r.1.value < |line| && line[r.1.value] == LBRACE
    ensures opening.Some? ==> r.1.Some?
    decreases |line| - index
  {
    if index >= |line| then (quoted, opening)
    else if quoted && line[index] == BACKSLASH then Braces(line, index + 2, quoted, opening)
    else if line[index] == QUOTE then Braces(line, index + 1, !quoted, opening)
    else if !quoted && line[index] == LBRACE then Braces(line, index + 1, quoted, Some(index))
    else Braces(line, index + 1, quoted, opening)
  }

  datatype Trailing = NoLiteral | Unterminated | Literal(size: nat, opening: nat)

  /** The literal declaration that ends a data line. */
  function TrailingLiteral(line: bytes): (t: Trailing)
    ensures t.Literal? ==> t.opening < |line|
  {
    var (quoted, opening) := Braces(line, 0, false, None);
    if quoted then Unterminated
    else
      var trimmed := TrimSuffix(line, SP);
      if opening.None? || trimmed == [] || trimmed[|trimmed| - 1] != RBRACE then NoLiteral
      else
        var digits := TrimSuffix(trimmed[opening.value + 1..|trimmed| - 1], PLUS);
        if digits == [] || !AllDigits(digits) then NoLiteral
        else Literal(if DecimalValue(digits) <= MAX_UINT64 then DecimalValue(digits) else MAX_UINT64, opening.value)
  }

  /** The scan itself, one character of the line after another. */
  method TrailingImapLiteral(line: bytes) returns (t: Trailing)
    ensures t == TrailingLiteral(line)
  {
    var opening: Option<nat> := None;
    var quoted := false;
    var index := 0;
    while index < |line|
      invariant 0 <= index
      invariant opening.Some? ==> opening.value < |line| && line[opening.value] == LBRACE
      invariant Braces(line, index, quoted, opening) == Braces(line, 0, false, None)
    {
      if quoted && line[index] == BACKSLASH {
        index := index + 1;
      } else if line[index] == QUOTE {
        quoted := !quoted;
      } else if !quoted && line[index] == LBRACE {
        opening := Some(index);
      }
      index := index + 1;
    }
    if quoted {
      return Unterminated;
    }
    var trimmed := TrimSuffix(line, SP);
    if opening.None? || trimmed == [] || trimmed[|trimmed| - 1] != RBRACE {
      return NoLiteral;
    }
    var digits := TrimSuffix(trimmed[opening.value + 1..|trimmed| - 1], PLUS);
    if digits == [] {
      return NoLiteral;
    }
    for k := 0 to |digits|
      invariant forall j :: 0 <= j < k ==> IsDigit(digits[j])
    {
      if !IsDigit(digits[k]) {
        return NoLiteral;
      }
    }
    var size := DecimalValue(digits);
    t := Literal(if size <= MAX_UINT64 then size else MAX_UINT64, opening.value);
  }

  // ---- Numbers of a SEARCH line ----

  /** The numbers text of a SEARCH line and the group after it. */
  function BeforeGroup(rest: bytes): bytes {
    rest[..Find(rest, LPAREN)]
  }

  /** Exactly "(MODSEQ n)", one trailing space allowed. */
  predicate ModSeqGroup(group: bytes) {
    var g := TrimSuffix(group, SP);
    && g != [] && g[0] == LPAREN && g[|g| - 1] == RPAREN
    && var (name, value, ok) := Cut(TrimSuffix(TrimPrefix(g, LPAREN), RPAREN), SP);
       ok && FoldIs(name, MODSEQ) && ParseUint(value, MAX_UINT64).Some?
  }

  predicate GroupOk(rest: bytes) {
    LPAREN in rest ==> ModSeqGroup(rest[Find(rest, LPAREN)..])
  }

  predicate AllParse(fields: seq<bytes>) {
    forall i :: 0 <= i < |fields| ==> ParseUint(fields[i], MAX_UINT32).Some?
  }

  function Numbers(fields: seq<bytes>): (r: seq<nat>)
    requires AllParse(fields)
    ensures |r| == |fields|
  {
    if fields == [] then [] else [ParseUint(fields[0], MAX_UINT32).value] + Numbers(fields[1..])
  }

  // ---- Number sets ----

  datatype Interval = Interval(start: nat, stop: nat)

  function ParseInterval(item: bytes): Option<Interval> {
    var (low, high, range) := Cut(item, COLON);
    var start := ParseUint(low, MAX_UINT32);
    var stop := if range then ParseUint(high, MAX_UINT32) else start;
    if start.None? || stop.None? then None
    else if stop.value < start.value then Some(Interval(stop.value, start.value))
    else Some(Interval(start.value, stop.value))
  }

  function Split(s: bytes, separator: byte): (r: seq<bytes>)
    ensures |r| > 0
    decreases |s|
  {
    var (first, rest, more) := Cut(s, separator);
    if more then [first] + Split(rest, separator) else [first]
  }

  predicate ItemsParse(items: seq<bytes>) {
    forall i :: 0 <= i < |items| ==> ParseInterval(items[i]).Some?
  }

  function Intervals(items: seq<bytes>): (r: seq<Interval>)
    requires ItemsParse(items)
    ensures |r| == |items|
    ensures forall i :: 0 <= i < |r| ==> r[i] == ParseInterval(items[i]).value && r[i].start <= r[i].stop
  {
    if items == [] then [] else [ParseInterval(items[0]).value] + Intervals(items[1..])
  }

  predicate Contains(i: Interval, n: nat) {
    i.start <= n <= i.stop
  }

  predicate Intersect(a: Interval, b: Interval) {
    a.start <= b.stop && b.start <= a.stop
  }

  ghost predicate Overlapping(s: seq<Interval>) {
    exists i, j :: 0 <= i < j < |s| && Intersect(s[i], s[j])
  }

  /** Intervals overlap exactly when some number lies in two of them. */
  lemma OverlapIsRepeat(s: seq<Interval>)
    requires forall i :: 0 <= i < |s| ==> s[i].start <= s[i].stop
    ensures Overlapping(s) <==> exists n: nat, i, j :: 0 <= i < j < |s| && Contains(s[i], n) && Contains(s[j], n)
  {
    if Overlapping(s) {
      var i, j :| 0 <= i < j < |s| && Intersect(s[i], s[j]);
      var n := if s[i].start < s[j].start then s[j].start else s[i].start;
      assert Contains(s[i], n) && Contains(s[j], n);
    }
    if n: nat, i, j :| 0 <= i < j < |s| && Contains(s[i], n) && Contains(s[j], n) {
      assert Intersect(s[i], s[j]);
    }
  }
}
