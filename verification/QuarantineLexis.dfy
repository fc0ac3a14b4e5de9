/** The character classes, numbers and flat control lines that the structure
    quarantine admits (bridge/structure_quarantine.go:712-862). */
module QuarantineLexis {
  import opened Octets
  import opened Wrappers

  const OK: bytes := [0x4f, 0x4b]
  const NO: bytes := [0x4e, 0x4f]
  const BAD: bytes := [0x42, 0x41, 0x44]
  const BYE: bytes := [0x42, 0x59, 0x45]
  const PREAUTH: bytes := [0x50, 0x52, 0x45, 0x41, 0x55, 0x54, 0x48]
  const CAPABILITY: bytes := [0x43, 0x41, 0x50, 0x41, 0x42, 0x49, 0x4c, 0x49, 0x54, 0x59]
  const FLAGS: bytes := [0x46, 0x4c, 0x41, 0x47, 0x53]
  const SEARCH: bytes := [0x53, 0x45, 0x41, 0x52, 0x43, 0x48]
  const ESEARCH: bytes := [0x45, 0x53, 0x45, 0x41, 0x52, 0x43, 0x48]
  const EXISTS: bytes := [0x45, 0x58, 0x49, 0x53, 0x54, 0x53]
  const RECENT: bytes := [0x52, 0x45, 0x43, 0x45, 0x4e, 0x54]
  const EXPUNGE: bytes := [0x45, 0x58, 0x50, 0x55, 0x4e, 0x47, 0x45]
  const FETCH: bytes := [0x46, 0x45, 0x54, 0x43, 0x48]
  const UID: bytes := [0x55, 0x49, 0x44]
  const BODYSTRUCTURE: bytes := [0x42, 0x4f, 0x44, 0x59, 0x53, 0x54, 0x52, 0x55, 0x43, 0x54, 0x55, 0x52, 0x45]

  /** An ATOM-CHAR of RFC 3501. */
  predicate AtomChar(b: byte) {
    SP < b < DEL && b !in {LPAREN, RPAREN, LBRACE, QUOTE, PERCENT, STAR, BACKSLASH, RBRACKET}
  }

  predicate AllAtomChars(s: bytes) {
    forall i :: 0 <= i < |s| ==> AtomChar(s[i])
  }

  predicate Atom(s: bytes) {
    s != [] && AllAtomChars(s)
  }

  /** The inside of a quoted string, escapes included. */
  predicate QuotedRaw(raw: bytes) {
    if raw == [] then true
    else if raw[0] == BACKSLASH then
      |raw| >= 2 && (raw[1] == QUOTE || raw[1] == BACKSLASH) && QuotedRaw(raw[2..])
    else
      raw[0] != QUOTE && raw[0] != CR && raw[0] != LF && raw[0] != NUL && QuotedRaw(raw[1..])
  }

  /** A keyword, or a system flag with its one leading backslash. */
  predicate Flag(s: bytes) {
    Atom(if s != [] && s[0] == BACKSLASH then s[1..] else s)
  }

  /** The value of a canonical uint32; zero only where it is allowed. */
  function Number(s: bytes, zero: bool): Option<nat> {
    if !Canonical(s) || (s[0] == ZERO && !zero) || DecimalValue(s) > MAX_UINT32 then
      None
    else
      Some(DecimalValue(s))
  }

  /** Splits s around its first separator: the text before it, the text after
      it, and whether there was one. */
  function Cut(s: bytes, separator: byte): (bytes, bytes, bool) {
    var i := Find(s, separator);
    if i < |s| then (s[..i], s[i + 1..], true) else (s, [], false)
  }

  lemma CutAt(a: bytes, rest: bytes, separator: byte)
    requires separator !in a
    ensures Cut(a + [separator] + rest, separator) == (a, rest, true) && Cut(a, separator) == (a, [], false)
  {
    FindAt(a, rest, separator);
    var w := a + [separator] + rest;
    assert w[..|a|] == a && w[|a| + 1..] == rest;
  }

  predicate EveryWord(s: bytes, word: bytes -> bool)
    decreases |s|
  {
    var (first, rest, more) := Cut(s, SP);
    word(first) && (more ==> EveryWord(rest, word))
  }

  predicate NoBraces(s: bytes) {
    LBRACE !in s && RBRACE !in s
  }

  /** Opaque status text, whose leading response code closes on this line. */
  predicate StatusText(s: bytes) {
    s != [] && s[0] == LBRACKET ==> RBRACKET in s
  }

  predicate FlatFrom(s: bytes, quoted: bool, escaped: bool) {
    if s == [] then
      !quoted && !escaped
    else
      var b := s[0];
      if b < SP || b >= DEL then false
      else if escaped then (b == QUOTE || b == BACKSLASH) && FlatFrom(s[1..], quoted, false)
      else if quoted && b == BACKSLASH then FlatFrom(s[1..], quoted, true)
      else if b == QUOTE then FlatFrom(s[1..], !quoted, false)
      else b != LBRACE && b != RBRACE && FlatFrom(s[1..], quoted, false)
  }

  /** Printable ASCII with complete quoted strings and no brace at all. */
  predicate Flat(s: bytes) {
    FlatFrom(s, false, false)
  }

  predicate ContinuationLine(line: bytes)
    requires line != [] && line[0] == PLUS
  {
    line == [PLUS] || (line[1] == SP && StatusText(line[2..]))
  }

  predicate TaggedLine(line: bytes) {
    var (tag, status, _) := Cut(line, SP);
    var (name, text, hasText) := Cut(status, SP);
    && Atom(tag) && PLUS !in tag
    && (UpperIs(name, OK) || UpperIs(name, NO) || UpperIs(name, BAD))
    && (hasText ==> StatusText(text))
  }

  predicate NumberedLine(name: bytes, arguments: bytes, hasArguments: bool) {
    var (kind, _, extra) := Cut(arguments, SP);
    var number := Number(name, true);
    && number.Some? && hasArguments && !extra
    && (UpperIs(kind, EXISTS) || UpperIs(kind, RECENT) || (UpperIs(kind, EXPUNGE) && number.value > 0))
  }

  predicate FlagList(s: bytes) {
    && |s| >= 2 && s[0] == LPAREN && s[|s| - 1] == RPAREN
    && var list := s[1..|s| - 1];
       NoBraces(list) && (list == [] || EveryWord(list, Flag))
  }

  predicate NamedLine(name: bytes, arguments: bytes, hasArguments: bool) {
    if UpperIs(name, OK) || UpperIs(name, NO) || UpperIs(name, BAD) || UpperIs(name, BYE) || UpperIs(name, PREAUTH) then
      hasArguments ==> StatusText(arguments)
    else if UpperIs(name, CAPABILITY) then
      hasArguments && NoBraces(arguments) && EveryWord(arguments, Atom)
    else if UpperIs(name, FLAGS) then
      hasArguments && FlagList(arguments)
    else
      (UpperIs(name, SEARCH) || UpperIs(name, ESEARCH)) && (hasArguments ==> Flat(arguments))
  }

  /** Whether line, without its CRLF, is one admitted flat control response. */
  predicate ControlLine(line: bytes) {
    if line != [] && line[0] == PLUS then
      ContinuationLine(line)
    else if !HasPrefix(line, [STAR, SP]) then
      TaggedLine(line)
    else
      var (name, arguments, hasArguments) := Cut(line[2..], SP);
      if name != [] && IsDigit(name[0]) then
        NumberedLine(name, arguments, hasArguments)
      else
        NamedLine(name, arguments, hasArguments)
  }

  datatype PrefixVerdict = NotFetch | FetchPrefix | BadNumber

  /** Judges an untagged line at its third space: whether its second and third
      words are a sequence number and FETCH. */
  function JudgePrefix(prefix: bytes): PrefixVerdict
    requires |prefix| >= 3
  {
    var (number, name, _) := Cut(prefix[2..|prefix| - 1], SP);
    if number == [] || !IsDigit(number[0]) || !UpperIs(name, FETCH) then NotFetch
    else if Number(number, false).None? then BadNumber
    else FetchPrefix
  }
}
