/** The lexical machine of one FETCH list, byte by byte, with a nesting counter
    instead of a stack (bridge/structure_quarantine.go:387-651). Budgets other
    than the nesting and atom limits are the caller's. */
module FetchScan {
  import opened Octets
  import opened QuarantineLexis

  const MAX_DEPTH: nat := 64
  const MAX_ATOM: nat := 4096

  datatype Code = InvalidRequest | Protocol | BoundsExceeded | Canceled | TimedOut | Unreachable

  /** The last lexical element of a list, which decides what may follow it. */
  datatype Previous = AfterOpen | AfterSpace | AfterToken | AfterClose

  datatype Item = UidItem | FlagsItem | StructureItem

  /** The position within the top-level attribute list. */
  datatype Phase = AtName | AtNamed(item: Item) | AtValue(item: Item) | AtDone

  /** The lexical state, each with the data it still needs. */
  datatype Lex =
    | Opening
    | Between(previous: Previous)
    | InAtom(text: bytes)
    | InQuoted
    | InEscape
    | InSize(digits: nat, size: nat)
    | AtSizeCR(size: nat)
    | AtSizeLF(size: nat)
    | InLiteral(left: nat)
    | AtEndCR
    | AtEndLF
    | Finished

  /** What the machine has seen of one FETCH. */
  datatype Scan = Scan(
    lex: Lex,
    depth: nat,
    phase: Phase,
    flagsList: bool,
    uidNamed: bool,
    uid: nat,
    flags: bool,
    structure: bool,
    tokens: nat)

  datatype Verdict = Next(scan: Scan) | Refused(code: Code)

  /** The machine before the opening parenthesis. */
  const START: Scan := Scan(Opening, 0, AtName, false, false, 0, false, false, 0)

  /** The machine's states: lists are open exactly between its two ends, and
      a literal in progress still has payload. */
  ghost predicate Valid(s: Scan) {
    && s.depth <= MAX_DEPTH
    && (s.lex.Opening? || s.lex.AtEndCR? || s.lex.AtEndLF? || s.lex.Finished? <==> s.depth == 0)
    && (s.lex.InLiteral? ==> s.lex.left > 0)
    && (s.lex.InAtom? ==> 0 < |s.lex.text| <= MAX_ATOM)
    && (s.flagsList ==> s.depth == 2)
    && (s.lex.Opening? ==> s == START)
  }

  /** The closing parentheses a completion must still send. */
  function Closing(s: Scan): nat {
    if s.lex.Opening? then 2 else s.depth
  }

  /** The octets of the least possible completion. */
  function Need(s: Scan): nat {
    match s.lex
    case Opening => 4
    case InQuoted => s.depth + 3
    case InEscape => s.depth + 4
    case InSize(digits, size) => s.depth + 5 + size + (if digits == 0 then 1 else 0)
    case AtSizeCR(size) => s.depth + 4 + size
    case AtSizeLF(size) => s.depth + 3 + size
    case InLiteral(left) => s.depth + 2 + left
    case AtEndLF => 1
    case Finished => 0
    case _ => s.depth + 2
  }

  /** Between the outermost parentheses, before any further lexical state. */
  ghost predicate Inside(s: Scan) {
    0 < s.depth <= MAX_DEPTH && (s.flagsList ==> s.depth == 2)
  }

  /** One octet brings the least completion at most one octet nearer and
      closes or opens lists only against the token count. */
  ghost predicate Nearer(need: nat, closing: nat, s': Scan) {
    need <= 1 + Need(s') && closing <= s'.tokens + Closing(s')
  }

  function Open(s: Scan): (v: Verdict)
    requires s.depth <= MAX_DEPTH && (s.flagsList ==> s.depth == 1)
    ensures v.Next? ==> Valid(v.scan)
  {
    if s.depth == MAX_DEPTH then
      Refused(BoundsExceeded)
    else
      Next(s.(lex := Between(AfterOpen), depth := s.depth + 1, tokens := s.tokens + 1))
  }

  function Close(s: Scan): (v: Verdict)
    requires Inside(s)
    ensures v.Next? ==> Valid(v.scan) && Nearer(s.depth + 2, s.tokens + s.depth, v.scan)
    ensures v.Next? ==> s.tokens <= v.scan.tokens <= s.tokens + 1
  {
    var closed := s.(lex := Between(AfterClose), depth := s.depth - 1, tokens := s.tokens + 1);
    if s.depth == 2 then Next(closed.(phase := AtDone, flagsList := false))
    else if s.depth == 1 then Next(closed.(lex := AtEndCR))
    else Next(closed)
  }

  /** Admits UID, FLAGS and BODYSTRUCTURE, each at most once. */
  function Named(s: Scan, name: bytes): (v: Verdict)
    ensures v.Next? ==> v.scan.lex == s.lex && v.scan.depth == s.depth && v.scan.tokens == s.tokens
    ensures v.Next? ==> v.scan.flagsList == s.flagsList
  {
    if UpperIs(name, UID) then
      if s.uidNamed then Refused(Protocol) else Next(s.(uidNamed := true, phase := AtNamed(UidItem)))
    else if UpperIs(name, FLAGS) then
      if s.flags then Refused(Protocol) else Next(s.(flags := true, phase := AtNamed(FlagsItem)))
    else if UpperIs(name, BODYSTRUCTURE) then
      if s.structure then Refused(Protocol) else Next(s.(structure := true, phase := AtNamed(StructureItem)))
    else
      Refused(Protocol)
  }

  /** Judges a complete atom where the grammar gives it meaning. */
  function EndAtom(s: Scan, text: bytes): (v: Verdict)
    ensures v.Next? ==> v.scan.lex == Between(AfterToken)
    ensures v.Next? ==> v.scan.depth == s.depth && v.scan.tokens == s.tokens && v.scan.flagsList == s.flagsList
  {
    var ended := s.(lex := Between(AfterToken));
    if s.depth == 1 && s.phase == AtName then
      Named(ended, text)
    else if s.depth == 1 then
      match Number(text, false)
      case None => Refused(Protocol)
      case Some(number) => Next(ended.(uid := number, phase := AtDone))
    else if s.flagsList && !Flag(text) then
      Refused(Protocol)
    else
      Next(ended)
  }

  function ItemsSpace(s: Scan, previous: Previous): (v: Verdict)
    requires Inside(s)
    ensures v.Next? ==> Valid(v.scan) && Nearer(s.depth + 2, s.tokens + s.depth, v.scan)
    ensures v.Next? ==> s.tokens <= v.scan.tokens <= s.tokens + 1
  {
    if previous != AfterToken && previous != AfterClose then
      Refused(Protocol)
    else if s.depth == 1 then
      match s.phase
      case AtNamed(item) => Next(s.(lex := Between(AfterSpace), phase := AtValue(item)))
      case AtDone => Next(s.(lex := Between(AfterSpace), phase := AtName))
      case _ => Refused(Protocol)
    else
      Next(s.(lex := Between(AfterSpace)))
  }

  function ItemsOpen(s: Scan, previous: Previous): (v: Verdict)
    requires Inside(s)
    ensures v.Next? ==> Valid(v.scan) && Nearer(s.depth + 2, s.tokens + s.depth, v.scan)
    ensures v.Next? ==> s.tokens <= v.scan.tokens <= s.tokens + 1
  {
    var nested := previous == AfterClose && s.depth >= 2 && !s.flagsList;
    if previous != AfterOpen && previous != AfterSpace && !nested then
      Refused(Protocol)
    else if s.depth == 1 then
      if !s.phase.AtValue? || s.phase.item == UidItem then Refused(Protocol)
      else Open(s.(flagsList := s.phase.item == FlagsItem))
    else if s.flagsList then
      Refused(Protocol)
    else
      Open(s)
  }

  function ItemsToken(s: Scan, previous: Previous, b: byte): (v: Verdict)
    requires Inside(s)
    ensures v.Next? ==> Valid(v.scan) && Nearer(s.depth + 2, s.tokens + s.depth, v.scan)
    ensures v.Next? ==> s.tokens <= v.scan.tokens <= s.tokens + 1
  {
    var atom := AtomChar(b) || b == BACKSLASH;
    if previous != AfterOpen && previous != AfterSpace then
      Refused(Protocol)
    else if s.depth == 1 && (!atom || (s.phase.AtValue? && s.phase.item != UidItem)) then
      Refused(Protocol)
    else if s.flagsList && !atom then
      Refused(Protocol)
    else if b == QUOTE then
      Next(s.(lex := InQuoted, tokens := s.tokens + 1))
    else if b == LBRACE then
      Next(s.(lex := InSize(0, 0), tokens := s.tokens + 1))
    else if atom then
      Next(s.(lex := InAtom([b]), tokens := s.tokens + 1))
    else
      Refused(Protocol)
  }

  /** One octet between lexical tokens of the list. */
  function Items(s: Scan, previous: Previous, b: byte): (v: Verdict)
    requires Inside(s)
    ensures v.Next? ==> Valid(v.scan) && Nearer(s.depth + 2, s.tokens + s.depth, v.scan)
    ensures v.Next? ==> s.tokens <= v.scan.tokens <= s.tokens + 1
  {
    if b == SP then ItemsSpace(s, previous)
    else if b == LPAREN then ItemsOpen(s, previous)
    else if b == RPAREN then
      if previous == AfterSpace || (s.depth == 1 && s.phase != AtDone) then Refused(Protocol) else Close(s)
    else ItemsToken(s, previous, b)
  }

  /** What every step of the machine from s keeps. */
  ghost predicate Stepped(s: Scan, v: Verdict) {
    v.Next? ==>
      && Valid(v.scan)
      && Nearer(Need(s), s.tokens + Closing(s), v.scan)
      && s.tokens <= v.scan.tokens <= s.tokens + 1
  }

  function AtomByte(s: Scan, text: bytes, b: byte): (v: Verdict)
    requires Valid(s) && s.lex == InAtom(text)
    ensures Stepped(s, v)
  {
    if AtomChar(b) then
      if |text| == MAX_ATOM then Refused(BoundsExceeded) else Next(s.(lex := InAtom(text + [b])))
    else
      match EndAtom(s, text)
      case Refused(code) => Refused(code)
      case Next(ended) => Items(ended, AfterToken, b)
  }

  function QuotedByte(s: Scan, b: byte): (v: Verdict)
    requires Valid(s) && s.lex == InQuoted
    ensures Stepped(s, v)
  {
    if b == QUOTE then Next(s.(lex := Between(AfterToken)))
    else if b == BACKSLASH then Next(s.(lex := InEscape))
    else if b == CR || b == LF || b == NUL then Refused(Protocol)
    else Next(s)
  }

  function SizeByte(s: Scan, digits: nat, size: nat, b: byte): (v: Verdict)
    requires Valid(s) && s.lex == InSize(digits, size)
    ensures Stepped(s, v)
  {
    if b == RBRACE && digits > 0 then
      Next(s.(lex := AtSizeCR(size)))
    else if !IsDigit(b) || digits == 10 || size * 10 + (b - ZERO) > MAX_UINT32 then
      Refused(Protocol)
    else
      Next(s.(lex := InSize(digits + 1, size * 10 + (b - ZERO))))
  }

  function SizeLF(s: Scan, size: nat, b: byte): (v: Verdict)
    requires Valid(s) && s.lex == AtSizeLF(size)
    ensures Stepped(s, v)
  {
    if b != LF then Refused(Protocol)
    else Next(s.(lex := if size == 0 then Between(AfterToken) else InLiteral(size)))
  }

  function LiteralByte(s: Scan, left: nat): (v: Verdict)
    requires Valid(s) && s.lex == InLiteral(left)
    ensures Stepped(s, v)
  {
    Next(s.(lex := if left == 1 then Between(AfterToken) else InLiteral(left - 1)))
  }

  function OpeningByte(s: Scan, b: byte): (v: Verdict)
    requires Valid(s) && s.lex == Opening
    ensures Stepped(s, v)
  {
    if b == LPAREN then Open(s) else Refused(Protocol)
  }

  /** A state that admits the one octet wanted, and moves to lex. */
  function Expect(s: Scan, b: byte, wanted: byte, lex: Lex): Verdict {
    if b == wanted then Next(s.(lex := lex)) else Refused(Protocol)
  }

  /** One octet of a FETCH list. */
  function ScanByte(s: Scan, b: byte): (v: Verdict)
    requires Valid(s)
    ensures Stepped(s, v)
  {
    match s.lex
    case Opening => OpeningByte(s, b)
    case Between(previous) => Items(s, previous, b)
    case InAtom(text) => AtomByte(s, text, b)
    case InQuoted => QuotedByte(s, b)
    case InEscape => if b == QUOTE || b == BACKSLASH then Next(s.(lex := InQuoted)) else Refused(Protocol)
    case InSize(digits, size) => SizeByte(s, digits, size, b)
    case AtSizeCR(size) => Expect(s, b, CR, AtSizeLF(size))
    case AtSizeLF(size) => SizeLF(s, size, b)
    case InLiteral(left) => LiteralByte(s, left)
    case AtEndCR => Expect(s, b, CR, AtEndLF)
    case AtEndLF => Expect(s, b, LF, Finished)
    case Finished => Refused(Protocol)
  }

  /** The machine over a whole text. */
  function Run(s: Scan, w: bytes): (v: Verdict)
    requires Valid(s)
    ensures v.Next? ==> Valid(v.scan)
    decreases |w|
  {
    if w == [] then Next(s)
    else
      match ScanByte(s, w[0])
      case Refused(code) => Refused(code)
      case Next(s') => Run(s', w[1..])
  }

  /** Goes on from a verdict unless it is a refusal. */
  function Resume(v: Verdict, w: bytes): Verdict
    requires v.Next? ==> Valid(v.scan)
  {
    if v.Next? then Run(v.scan, w) else v
  }

  /** Whether the machine reads w to the end of its frame, exactly. */
  ghost predicate Completes(s: Scan, w: bytes)
    requires Valid(s)
  {
    var v := Run(s, w);
    v.Next? && v.scan.lex.Finished?
  }

  lemma {:induction false} RunConcat(s: Scan, a: bytes, b: bytes)
    requires Valid(s)
    ensures Run(s, a + b) == Resume(Run(s, a), b)
    decreases |a|
  {
    if a == [] {
      assert a + b == b;
    } else {
      assert (a + b)[0] == a[0] && (a + b)[1..] == a[1..] + b;
      match ScanByte(s, a[0])
      case Refused(_) =>
      case Next(s') => RunConcat(s', a[1..], b);
    }
  }


  /** Every completion has at least Need octets and closes at least Closing
      more lists. */
  lemma {:induction false} NeedIsLowerBound(s: Scan, w: bytes)
    requires Valid(s) && Completes(s, w)
    ensures |w| >= Need(s)
    ensures Run(s, w).scan.tokens >= s.tokens + Closing(s)
    decreases |w|
  {
    if w != [] {
      NeedIsLowerBound(ScanByte(s, w[0]).scan, w[1..]);
    }
  }
}
