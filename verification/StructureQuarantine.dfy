/** The quarantine reader itself: one object whose fields are updated byte by
    byte, each method proved to take the state machine's step
    (bridge/structure_quarantine.go:91-710). */
module StructureQuarantine {
  import opened Octets
  import opened Sequences
  import opened Wrappers
  import opened QuarantineLexis
  import opened FetchScan
  import opened QuarantineMachine
  import opened QuarantineRuns

  datatype ReaderMode = BetweenResponses | OnLine | OnFetch

  datatype FetchState =
    | FetchOpen | FetchItems | FetchAtom | FetchQuoted | FetchEscape | FetchLiteralSize
    | FetchLiteralCR | FetchLiteralLF | FetchLiteral | FetchEndCR | FetchEndLF

  datatype ItemPhase = ItemName | ItemNamed | ItemValue | ItemDone

  const READ_BYTES: nat := 4096

  /** What one call of Read returned: approved bytes, nothing for an empty
      buffer, or the terminal error. Blocked is a call still waiting for its
      source. */
  datatype ReadResult = Bytes(data: bytes) | Nothing | Failed(code: Code) | Blocked

  /** One wait for the source with the mutex released: the dispatches and
      aborts of other goroutines meanwhile, then what the source delivered. */
  datatype Wait = Wait(meanwhile: seq<Event>, chunk: bytes, failure: Option<Failure>)

  predicate IsCall(e: Event) {
    e.Begin? || e.Abort?
  }

  ghost predicate WaitOk(w: Wait) {
    forall e :: e in w.meanwhile ==> IsCall(e)
  }

  function Inputs(chunk: bytes): seq<Event> {
    seq(|chunk|, i requires 0 <= i < |chunk| => Input(chunk[i]))
  }

  /** The steps one wait stands for, in order. */
  function Expand(w: Wait): seq<Event> {
    w.meanwhile + Inputs(w.chunk) + (if w.failure.Some? then [SourceFailed(w.failure.value)] else [])
  }

  function ExpandAll(script: seq<Wait>): seq<Event> {
    if script == [] then [] else Expand(script[0]) + ExpandAll(script[1..])
  }

  function ChunkOctets(script: seq<Wait>): nat {
    if script == [] then 0 else |script[0].chunk| + ChunkOctets(script[1..])
  }

  lemma FetchByteIs(m: Machine, scan: Scan, b: byte)
    requires FetchScan.Valid(scan)
    ensures var v, r := Capped(ScanByte(scan, b), scan.tokens, m.work), FetchByte(m, scan, b);
            if v.Refused? then r == Refuse(m, v.code)
            else if v.scan.lex.Finished? then r == CompleteFetch(m.(work := m.work + v.scan.tokens - scan.tokens), v.scan)
            else r == CheckFetch(m.(work := m.work + v.scan.tokens - scan.tokens), v.scan)
    ensures Running(m) && m.frame != [] ==> Ok(FetchByte(m, scan, b))
  {
    hide ScanByte, CompleteFetch, CheckFetch, Ok;
  }

  lemma FeasibleSame(m: Machine, other: Machine, scan: Scan)
    requires m.frame == other.frame && m.sessionBytes == other.sessionBytes && m.work == other.work
    ensures Feasible(m, scan) == Feasible(other, scan)
  {
  }

  lemma PlayNothing(m: Machine)
    requires Ok(m)
    ensures Play(m, []) == m
  {
  }

  lemma FeedIs(m: Machine, b: byte)
    requires Ok(m) && m.terminal.None?
    ensures Feed(m, b) ==
              if Exhausted(m) then Refuse(m, BoundsExceeded)
              else
                var m1 := Append(Start(m), b);
                if m1.mode.InLine? then LineByte(m1, m1.mode.spaces, m1.mode.cr, b)
                else FetchByte(m1, m1.mode.scan, b)
  {
    hide FetchByte, LineByte;
  }

  /** An octet that ends the machine leaves what it had released. */
  lemma RefusedIs(m: Machine, b: byte)
    requires Ok(m) && m.terminal.None?
    ensures Feed(m, b).terminal.Some? ==> Feed(m, b) == Refuse(m, Feed(m, b).terminal.value)
  {
    hide ScanByte, ControlLine, JudgePrefix;
  }

  lemma {:induction false} EndedDiscards(m: Machine, chunk: bytes)
    requires Ok(m) && m.terminal.Some?
    ensures Play(m, Inputs(chunk)) == m
    decreases |chunk|
  {
    if chunk != [] {
      assert Inputs(chunk)[1..] == Inputs(chunk[1..]);
      EndedDiscards(m, chunk[1..]);
    }
  }

  lemma FailureAfterEnd(m: Machine, failure: Failure)
    requires Ok(m) && m.terminal.Some?
    ensures Step(m, SourceFailed(failure)) == m
  {
    hide Feed;
  }

  lemma InputsConcat(a: bytes, b: bytes)
    ensures Inputs(a + b) == Inputs(a) + Inputs(b)
  {
  }

  /** A wait cut in two stands for the same steps. */
  lemma CutWait(w: Wait, limit: nat)
    requires limit <= |w.chunk|
    ensures Expand(w) == Expand(Wait(w.meanwhile, w.chunk[..limit], None)) + Expand(Wait([], w.chunk[limit..], w.failure))
  {
    InputsConcat(w.chunk[..limit], w.chunk[limit..]);
    assert w.chunk == w.chunk[..limit] + w.chunk[limit..];
    hide Inputs;
  }

  /** What the source delivers into a buffer of limit octets: its next chunk,
      cut at the limit, and the deliveries still to come. */
  method Delivery(script: seq<Wait>, limit: nat) returns (wait: Wait, rest: seq<Wait>)
    requires script != [] && limit > 0 && forall w :: w in script ==> WaitOk(w)
    ensures |wait.chunk| <= limit && WaitOk(wait) && forall w :: w in rest ==> WaitOk(w)
    ensures ExpandAll(script) == Expand(wait) + ExpandAll(rest)
    ensures ChunkOctets(rest) + |rest| < ChunkOctets(script) + |script|
  {
    wait, rest := script[0], script[1..];
    assert wait in script;
    if |wait.chunk| > limit {
      var left := Wait([], wait.chunk[limit..], wait.failure);
      var head := Wait(wait.meanwhile, wait.chunk[..limit], None);
      CutWait(wait, limit);
      hide Inputs, Expand;
      wait, rest := head, [left] + rest;
      assert rest[1..] == script[1..];
    }
  }

  /** The end of an atom does not depend on the lexical state recorded. */
  lemma EndAtomRests(s: Scan, t: Scan, text: bytes)
    requires t == s.(lex := t.lex)
    ensures EndAtom(s, text) == EndAtom(t, text)
  {
    hide UpperIs, Flag, Number;
  }

  class Quarantine {
    const selectedUID: nat
    var dispatch: Dispatch
    var pending: bytes
    var terminal: Option<Code>

    var sessionBytes: nat
    var responses: nat
    var work: nat

    var mode: ReaderMode
    var frame: bytes
    var frameCapacity: nat
    var lineSpaces: nat
    var lineCR: bool

    var state: FetchState
    var depth: nat
    var tokens: nat
    var previous: Previous
    var phase: ItemPhase
    var item: Item
    var flagsList: bool
    var atomStart: nat
    var literal: nat
    var digits: nat
    var uidCount: nat
    var uid: nat
    var flags: nat
    var structure: nat

    ghost var log: seq<Framed>
    ghost var out: bytes

    // ---- Abstraction ----

    function PhaseNow(): Phase
      reads this`phase, this`item
    {
      match phase
      case ItemName => AtName
      case ItemNamed => AtNamed(item)
      case ItemValue => AtValue(item)
      case ItemDone => AtDone
    }

    /** The lexical state after the first end octets of the frame. */
    function LexAt(end: nat): Lex
      requires state.FetchAtom? ==> atomStart <= end <= |frame|
      reads this`state, this`previous, this`frame, this`atomStart, this`digits, this`literal
    {
      match state
      case FetchOpen => Opening
      case FetchItems => Between(previous)
      case FetchAtom => InAtom(frame[atomStart..end])
      case FetchQuoted => InQuoted
      case FetchEscape => InEscape
      case FetchLiteralSize => InSize(digits, literal)
      case FetchLiteralCR => AtSizeCR(literal)
      case FetchLiteralLF => AtSizeLF(literal)
      case FetchLiteral => InLiteral(literal)
      case FetchEndCR => AtEndCR
      case FetchEndLF => AtEndLF
    }

    function ScanAt(end: nat): Scan
      requires state.FetchAtom? ==> atomStart <= end <= |frame|
      reads this
    {
      Scan(LexAt(end), depth, PhaseNow(), flagsList, uidCount > 0, uid, flags > 0, structure > 0, tokens)
    }

    /** The machine state this object holds. */
    ghost function Model(): Machine
      requires terminal.None? && mode.OnFetch? && state.FetchAtom? ==> atomStart <= |frame|
      reads this
    {
      if terminal.Some? then
        Machine(selectedUID, dispatch, terminal, 0, 0, 0, AtBoundary, [], pending, log, out)
      else
        var now := if mode.OnFetch? then InFetch(ScanAt(|frame|))
                   else if mode.OnLine? then InLine(lineSpaces, lineCR) else AtBoundary;
        Machine(selectedUID, dispatch, None, sessionBytes, responses, work, now,
                if mode.BetweenResponses? then [] else frame, pending, log, out)
    }

    /** The raw frame never outgrows one complete frame. */
    predicate Storage()
      reads this`frame, this`frameCapacity
    {
      |frame| <= frameCapacity <= FRAME_BYTES
    }

    ghost predicate Valid()
      reads this
    {
      && (terminal.None? && mode.OnFetch? && state.FetchAtom? ==> atomStart <= |frame|)
      && Ok(Model())
      && Storage()
      && (terminal.None? && mode.OnFetch? ==> uidCount <= 1 && flags <= 1 && structure <= 1)
    }

    // ---- Lexical tokens ----

    /** The scan between tokens, whatever lexical state is still recorded. */
    function Resting(): Scan
      reads this
    {
      Scan(Between(previous), depth, PhaseNow(), flagsList, uidCount > 0, uid, flags > 0, structure > 0, tokens)
    }

    predicate Budgeted()
      reads this`tokens, this`work, this`uidCount, this`flags, this`structure
    {
      tokens <= FETCH_TOKENS && work <= WORK_UNITS && uidCount <= 1 && flags <= 1 && structure <= 1
    }

    /** The object agrees with the verdict v of its lexical machine. */
    ghost predicate Agrees(v: Verdict, err: Option<Code>)
      reads this
    {
      match v
      case Refused(code) => err == Some(code)
      case Next(scan) =>
        err.None? && Budgeted() && (state.FetchAtom? ==> atomStart <= |frame|) && ScanAt(|frame|) == scan
    }

    method TokenLocked() returns (err: Option<Code>)
      requires Budgeted()
      modifies this`tokens, this`work
      ensures err == if old(tokens == FETCH_TOKENS || work == WORK_UNITS) then Some(BoundsExceeded) else None
      ensures err.None? ==> Budgeted() && tokens == old(tokens) + 1 && work == old(work) + 1
    {
      if tokens == FETCH_TOKENS || work == WORK_UNITS {
        return Some(BoundsExceeded);
      }
      tokens := tokens + 1;
      work := work + 1;
      return None;
    }

    method OpenLocked() returns (err: Option<Code>)
      requires Budgeted() && state.FetchItems? && depth <= MAX_DEPTH && (flagsList ==> depth == 1)
      modifies this`tokens, this`work, this`depth, this`previous
      ensures Agrees(Capped(Open(old(Resting())), old(tokens), old(work)), err)
      ensures err.None? ==> work == old(work) + tokens - old(tokens)
    {
      if depth == MAX_DEPTH {
        return Some(BoundsExceeded);
      }
      err := TokenLocked();
      if err.Some? {
        return;
      }
      depth := depth + 1;
      previous := AfterOpen;
    }

    method CloseLocked() returns (err: Option<Code>)
      requires Budgeted() && state.FetchItems? && Inside(Resting())
      modifies this`tokens, this`work, this`depth, this`previous, this`phase, this`flagsList, this`state
      ensures Agrees(Capped(Close(old(Resting())), old(tokens), old(work)), err)
      ensures err.None? ==> work == old(work) + tokens - old(tokens)
    {
      hide FetchScan.Valid, Nearer;
      err := TokenLocked();
      if err.Some? {
        return;
      }
      depth := depth - 1;
      previous := AfterClose;
      if depth == 1 {
        phase := ItemDone;
        flagsList := false;
      } else if depth == 0 {
        state := FetchEndCR;
      }
    }

    method SpaceLocked() returns (err: Option<Code>)
      requires Budgeted() && state.FetchItems? && Inside(Resting())
      modifies this`previous, this`phase
      ensures Agrees(ItemsSpace(old(Resting()), old(previous)), err)
    {
      if previous != AfterToken && previous != AfterClose {
        return Some(Protocol);
      }
      if depth == 1 {
        match phase
        case ItemNamed => phase := ItemValue;
        case ItemDone => phase := ItemName;
        case _ => return Some(Protocol);
      }
      previous := AfterSpace;
      return None;
    }

    method ListLocked() returns (err: Option<Code>)
      requires Budgeted() && state.FetchItems? && Inside(Resting())
      modifies this`tokens, this`work, this`depth, this`previous, this`flagsList
      ensures Agrees(Capped(ItemsOpen(old(Resting()), old(previous)), old(tokens), old(work)), err)
      ensures err.None? ==> work == old(work) + tokens - old(tokens)
    {
      var nested := previous == AfterClose && depth >= 2 && !flagsList;
      if previous != AfterOpen && previous != AfterSpace && !nested {
        return Some(Protocol);
      }
      if depth == 1 {
        if phase != ItemValue || item == UidItem {
          return Some(Protocol);
        }
        flagsList := item == FlagsItem;
      } else if flagsList {
        return Some(Protocol);
      }
      err := OpenLocked();
    }

    method StartTokenLocked(value: byte) returns (err: Option<Code>)
      requires Budgeted() && state.FetchItems? && Inside(Resting())
      requires frame != [] && frame[|frame| - 1] == value
      modifies this`tokens, this`work, this`state, this`literal, this`digits, this`atomStart
      ensures Agrees(Capped(ItemsToken(old(Resting()), old(previous), value), old(tokens), old(work)), err)
      ensures err.None? ==> work == old(work) + tokens - old(tokens)
    {
      hide FetchScan.Valid, Nearer, AtomChar;
      if previous != AfterOpen && previous != AfterSpace {
        return Some(Protocol);
      }
      var atom := AtomChar(value) || value == BACKSLASH;
      if depth == 1 && (!atom || (phase == ItemValue && item != UidItem)) {
        return Some(Protocol);
      }
      if flagsList && !atom {
        return Some(Protocol);
      }
      if value == QUOTE {
        state := FetchQuoted;
      } else if value == LBRACE {
        state := FetchLiteralSize;
        literal := 0;
        digits := 0;
      } else if atom {
        state := FetchAtom;
        atomStart := |frame| - 1;
        assert frame[atomStart..|frame|] == [value];
      } else {
        return Some(Protocol);
      }
      err := TokenLocked();
    }

    /** One octet between the tokens of the list. */
    method ItemsByteLocked(value: byte) returns (err: Option<Code>)
      requires Budgeted() && state.FetchItems? && Inside(Resting())
      requires frame != [] && frame[|frame| - 1] == value
      modifies this`tokens, this`work, this`depth, this`previous, this`phase, this`flagsList, this`state,
        this`literal, this`digits, this`atomStart
      ensures Agrees(Capped(Items(old(Resting()), old(previous), value), old(tokens), old(work)), err)
      ensures err.None? ==> work == old(work) + tokens - old(tokens)
    {
      if value == SP {
        err := SpaceLocked();
      } else if value == LPAREN {
        err := ListLocked();
      } else if value == RPAREN {
        if previous == AfterSpace || (depth == 1 && phase != ItemDone) {
          return Some(Protocol);
        }
        err := CloseLocked();
      } else {
        err := StartTokenLocked(value);
      }
    }

    method LiteralSizeByteLocked(value: byte) returns (err: Option<Code>)
      requires Budgeted() && state.FetchLiteralSize? && FetchScan.Valid(ScanAt(0))
      modifies this`state, this`digits, this`literal
      ensures Agrees(SizeByte(old(ScanAt(0)), old(digits), old(literal), value), err)
    {
      if value == RBRACE && digits > 0 {
        state := FetchLiteralCR;
        return None;
      }
      if !IsDigit(value) || digits == 10 {
        return Some(Protocol);
      }
      digits := digits + 1;
      literal := literal * 10 + (value - ZERO);
      if literal > MAX_UINT32 {
        return Some(Protocol);
      }
      return None;
    }

    /** Admits an item name at most once. */
    method NameLocked(name: bytes) returns (err: Option<Code>)
      requires Budgeted()
      modifies this`item, this`uidCount, this`flags, this`structure, this`phase
      ensures match Named(old(Resting()), name)
              case Refused(code) => err == Some(code)
              case Next(scan) => err.None? && Budgeted() && Resting() == scan
    {
      if UpperIs(name, UID) {
        if uidCount > 0 { return Some(Protocol); }
        item, uidCount := UidItem, 1;
      } else if UpperIs(name, FLAGS) {
        if flags > 0 { return Some(Protocol); }
        item, flags := FlagsItem, 1;
      } else if UpperIs(name, BODYSTRUCTURE) {
        if structure > 0 { return Some(Protocol); }
        item, structure := StructureItem, 1;
      } else {
        return Some(Protocol);
      }
      phase := ItemNamed;
      return None;
    }

    /** Judges the atom that ended before end where it has a meaning. */
    method EndAtomLocked(end: nat) returns (err: Option<Code>)
      requires Budgeted() && state.FetchAtom? && atomStart <= end <= |frame|
      modifies this`previous, this`item, this`uidCount, this`flags, this`structure, this`phase, this`uid
      ensures match EndAtom(old(Resting()), frame[atomStart..end])
              case Refused(code) => err == Some(code)
              case Next(scan) => err.None? && Budgeted() && Resting() == scan
    {
      var atom := frame[atomStart..end];
      previous := AfterToken;
      if depth == 1 && phase == ItemName {
        err := NameLocked(atom);
      } else if depth == 1 {
        var number := Number(atom, false);
        if number.None? {
          return Some(Protocol);
        }
        uid := number.value;
        phase := ItemDone;
        return None;
      } else if flagsList && !Flag(atom) {
        return Some(Protocol);
      } else {
        return None;
      }
    }

    /** Ends the atom before value and reads value between tokens. */
    method AtomEndsLocked(value: byte) returns (err: Option<Code>)
      requires Budgeted() && state.FetchAtom? && frame != [] && frame[|frame| - 1] == value
      requires atomStart < |frame| && Inside(Resting())
      modifies this`tokens, this`work, this`depth, this`previous, this`phase, this`flagsList, this`state,
        this`literal, this`digits, this`atomStart, this`item, this`uidCount, this`flags, this`structure, this`uid
      ensures var ended := EndAtom(old(Resting()), frame[old(atomStart)..|frame| - 1]);
              Agrees(if ended.Refused? then ended
                     else Capped(Items(ended.scan, AfterToken, value), old(tokens), old(work)), err)
      ensures err.None? ==> work == old(work) + tokens - old(tokens)
    {
      hide Nearer, AtomChar, EndAtom, Items, Need, Closing;
      err := EndAtomLocked(|frame| - 1);
      if err.Some? {
        return;
      }
      state := FetchItems;
      err := ItemsByteLocked(value);
    }

    method AtomByteLocked(value: byte) returns (err: Option<Code>)
      requires Budgeted() && state.FetchAtom? && frame != [] && frame[|frame| - 1] == value
      requires atomStart < |frame| && FetchScan.Valid(ScanAt(|frame| - 1))
      modifies this`tokens, this`work, this`depth, this`previous, this`phase, this`flagsList, this`state,
        this`literal, this`digits, this`atomStart, this`item, this`uidCount, this`flags, this`structure, this`uid
      ensures Agrees(Capped(ScanByte(old(ScanAt(|frame| - 1)), value), old(tokens), old(work)), err)
      ensures err.None? ==> work == old(work) + tokens - old(tokens)
    {
      hide Nearer, AtomChar, EndAtom, Items, Need, Closing;
      ghost var text := frame[atomStart..|frame| - 1];
      if AtomChar(value) {
        assert frame[atomStart..|frame|] == text + [value];
        if |frame| - atomStart > MAX_ATOM {
          return Some(BoundsExceeded);
        }
        return None;
      }
      EndAtomRests(ScanAt(|frame| - 1), Resting(), text);
      err := AtomEndsLocked(value);
    }

    // ---- Whole responses ----

    /** Keeps the current frame whole and returns to the boundary. */
    method ReleaseLocked(ghost kind: FrameKind)
      requires kind != FlagsOnly
      modifies this`pending, this`mode, this`log
      ensures pending == old(pending) + frame && mode == BetweenResponses && log == old(log) + [Framed(kind, frame)]
    {
      pending := pending + frame;
      mode := BetweenResponses;
      log := log + [Framed(kind, frame)];
    }

    /** The running machine of these fields, in the given mode. */
    ghost function MachineIn(now: Mode): Machine
      reads this
    {
      Machine(selectedUID, dispatch, None, sessionBytes, responses, work, now, frame, pending, log, out)
    }

    /** The object took the machine to r: either r ended with err, and nothing
        was released, or the object is in the boundary state r. */
    ghost predicate Reached(r: Machine, err: Option<Code>)
      reads this
    {
      if r.terminal.Some? then
        err == r.terminal && dispatch == r.dispatch && pending == r.pending && log == r.log && out == r.out
      else
        err.None? && mode == BetweenResponses && r == MachineIn(AtBoundary).(frame := [])
    }

    /** Classifies one completely framed FETCH. */
    method CompleteFetchLocked(ghost now: Mode) returns (err: Option<Code>)
      requires Budgeted()
      modifies this`dispatch, this`pending, this`mode, this`log
      ensures Reached(CompleteFetch(old(MachineIn(now)), old(Resting())), err)
    {
      if structure == 1 {
        if uidCount == 0 || uid != selectedUID || dispatch != Active {
          return Some(Protocol);
        }
        dispatch := Delivered;
        ReleaseLocked(Structure);
        return None;
      }
      if flags == 1 {
        mode := BetweenResponses;
        log := log + [Framed(FlagsOnly, frame)];
        return None;
      }
      return Some(Protocol);
    }

    method QuotedByteLocked(value: byte) returns (err: Option<Code>)
      requires state.FetchQuoted? || state.FetchEscape?
      requires Budgeted() && FetchScan.Valid(ScanAt(0))
      modifies this`state, this`previous
      ensures Agrees(ScanByte(old(ScanAt(0)), value), err)
    {
      hide Items, OpeningByte, AtomByte, SizeByte;
      if state.FetchQuoted? {
        if value == QUOTE {
          state := FetchItems;
          previous := AfterToken;
        } else if value == BACKSLASH {
          state := FetchEscape;
        } else if value == CR || value == LF || value == NUL {
          return Some(Protocol);
        }
        return None;
      }
      if value != QUOTE && value != BACKSLASH {
        return Some(Protocol);
      }
      state := FetchQuoted;
      return None;
    }

    method LiteralByteLocked(value: byte) returns (err: Option<Code>)
      requires state.FetchLiteralCR? || state.FetchLiteralLF? || state.FetchLiteral?
      requires Budgeted() && FetchScan.Valid(ScanAt(0))
      modifies this`state, this`literal, this`previous
      ensures Agrees(ScanByte(old(ScanAt(0)), value), err)
    {
      hide Items, OpeningByte, AtomByte, SizeByte;
      if state.FetchLiteralCR? {
        if value != CR {
          return Some(Protocol);
        }
        state := FetchLiteralLF;
        return None;
      }
      if state.FetchLiteralLF? {
        if value != LF {
          return Some(Protocol);
        }
        state := FetchLiteral;
        if literal == 0 {
          state := FetchItems;
          previous := AfterToken;
        }
        return None;
      }
      literal := literal - 1;
      if literal == 0 {
        state := FetchItems;
        previous := AfterToken;
      }
      return None;
    }

    /** One octet of a FETCH list before its last. */
    method LexByteLocked(value: byte) returns (err: Option<Code>)
      requires Budgeted() && frame != [] && frame[|frame| - 1] == value && (state.FetchAtom? ==> atomStart < |frame|)
      requires FetchScan.Valid(ScanAt(|frame| - 1)) && !state.FetchEndLF?
      modifies this`tokens, this`work, this`depth, this`previous, this`phase, this`flagsList, this`state,
        this`literal, this`digits, this`atomStart, this`item, this`uidCount, this`flags, this`structure, this`uid
      ensures Agrees(Capped(ScanByte(old(ScanAt(|frame| - 1)), value), old(tokens), old(work)), err)
      ensures err.None? ==> work == old(work) + tokens - old(tokens)
    {
      hide Items, AtomByte, SizeByte, SizeLF, QuotedByte, LiteralByte, Stepped, Need, Closing;
      if state.FetchOpen? {
        if value != LPAREN {
          return Some(Protocol);
        }
        state := FetchItems;
        err := OpenLocked();
      } else if state.FetchItems? {
        err := ItemsByteLocked(value);
      } else if state.FetchAtom? {
        err := AtomByteLocked(value);
      } else {
        err := TextByteLocked(value);
      }
    }

    method TextByteLocked(value: byte) returns (err: Option<Code>)
      requires !state.FetchAtom? && !state.FetchItems? && !state.FetchOpen? && !state.FetchEndLF?
      requires Budgeted() && FetchScan.Valid(ScanAt(0))
      modifies this`state, this`digits, this`literal, this`previous
      ensures Agrees(ScanByte(old(ScanAt(0)), value), err)
    {
      hide Items, AtomByte, SizeLF, SizeByte, QuotedByte, LiteralByte, Stepped, Need, Closing;
      if state.FetchQuoted? || state.FetchEscape? {
        err := QuotedByteLocked(value);
      } else if state.FetchLiteralSize? {
        err := LiteralSizeByteLocked(value);
      } else if !state.FetchEndCR? {
        err := LiteralByteLocked(value);
      } else if value != CR {
        err := Some(Protocol);
      } else {
        state := FetchEndLF;
        err := None;
      }
    }

    /** One octet of a FETCH list, already appended to the frame. */
    method FetchByteLocked(value: byte) returns (err: Option<Code>)
      requires terminal.None? && mode == OnFetch && Budgeted()
      requires frame != [] && frame[|frame| - 1] == value && (state.FetchAtom? ==> atomStart < |frame|)
      requires FetchScan.Valid(ScanAt(|frame| - 1))
      modifies this`tokens, this`work, this`depth, this`previous, this`phase, this`flagsList, this`state,
        this`literal, this`digits, this`atomStart, this`item, this`uidCount, this`flags, this`structure, this`uid,
        this`dispatch, this`pending, this`mode, this`log
      ensures var v := Capped(ScanByte(old(ScanAt(|frame| - 1)), value), old(tokens), old(work));
              if v.Next? && v.scan.lex.Finished? then
                && v.scan.tokens == old(tokens) == tokens && work == old(work)
                && Reached(CompleteFetch(old(MachineIn(InFetch(ScanAt(|frame| - 1)))), v.scan), err)
              else
                && Agrees(v, err) && unchanged(this`mode, this`dispatch, this`pending, this`log)
                && (err.None? ==> work == old(work) + tokens - old(tokens))
    {
      hide Items, AtomByte, SizeByte, SizeLF, QuotedByte, LiteralByte, Stepped, Need, Closing;
      if !state.FetchEndLF? {
        hide ScanByte;
        err := LexByteLocked(value);
      } else if value != LF {
        err := Some(Protocol);
      } else {
        err := CompleteFetchLocked(InFetch(ScanAt(|frame| - 1)));
      }
    }

    /** Whether the least completion of this FETCH still fits every budget. */
    method FetchFeasibleLocked() returns (err: Option<Code>)
      requires mode == OnFetch && terminal.None? && Budgeted() && (state.FetchAtom? ==> atomStart <= |frame|)
      requires FetchScan.Valid(ScanAt(|frame|))
      ensures err == if Feasible(MachineIn(AtBoundary), ScanAt(|frame|)) then None else Some(BoundsExceeded)
    {
      var closing := depth;
      var bytesNeeded := closing + 2;
      match state {
        case FetchOpen =>
          closing := 2;
          bytesNeeded := 4;
        case FetchQuoted =>
          bytesNeeded := bytesNeeded + 1;
        case FetchEscape =>
          bytesNeeded := bytesNeeded + 2;
        case FetchLiteralSize =>
          bytesNeeded := bytesNeeded + 3 + literal;
          if digits == 0 {
            bytesNeeded := bytesNeeded + 1;
          }
        case FetchLiteralCR =>
          bytesNeeded := bytesNeeded + 2 + literal;
        case FetchLiteralLF =>
          bytesNeeded := bytesNeeded + 1 + literal;
        case FetchLiteral =>
          bytesNeeded := bytesNeeded + literal;
        case FetchEndLF =>
          bytesNeeded := 1;
        case _ =>
      }
      if |frame| + bytesNeeded > FRAME_BYTES || sessionBytes + bytesNeeded > SESSION_BYTES
         || tokens + closing > FETCH_TOKENS || work + closing > WORK_UNITS {
        return Some(BoundsExceeded);
      }
      return None;
    }

    // ---- Flat lines ----

    /** The object took the running machine to r, or reports why r ended. */
    ghost predicate Took(r: Machine, err: Option<Code>)
      reads this
    {
      if r.terminal.Some? then
        err == r.terminal && terminal.None? && dispatch == r.dispatch && pending == r.pending && log == r.log && out == r.out
      else
        err.None? && Valid() && Model() == r
    }

    method CompleteLineLocked() returns (err: Option<Code>)
      requires terminal.None? && mode == OnLine && |frame| >= 2 && Storage()
      requires sessionBytes <= SESSION_BYTES && responses <= RESPONSES && work < WORK_UNITS
      modifies this`work, this`pending, this`mode, this`log
      ensures Took(CompleteLine(old(MachineIn(InLine(lineSpaces, lineCR)))), err)
    {
      hide ControlLine;
      if !ControlLine(frame[..|frame| - 2]) {
        return Some(Protocol);
      }
      work := work + 1;
      ReleaseLocked(Control);
      return None;
    }

    method StartFetchLocked()
      modifies this`mode, this`state, this`depth, this`tokens, this`phase, this`flagsList, this`uidCount, this`uid,
        this`flags, this`structure
      ensures mode == OnFetch && state == FetchOpen && ScanAt(|frame|) == START
      ensures uidCount == flags == structure == 0
    {
      mode := OnFetch;
      state := FetchOpen;
      depth := 0;
      tokens := 0;
      phase := ItemName;
      flagsList := false;
      uidCount := 0;
      uid := 0;
      flags := 0;
      structure := 0;
    }

    /** The line still has room for its CRLF. */
    method LineRoomLocked() returns (err: Option<Code>)
      ensures err == if LineRoom(MachineIn(AtBoundary), lineCR) then None else Some(BoundsExceeded)
    {
      var need := 2;
      if lineCR {
        need := 1;
      }
      if |frame| + need > CONTROL_BYTES || sessionBytes + need > SESSION_BYTES {
        return Some(BoundsExceeded);
      }
      return None;
    }

    /** The third space decides whether an untagged line is a FETCH. */
    method ThirdSpaceLocked() returns (err: Option<Code>)
      requires terminal.None? && mode == OnLine && lineSpaces == 3 && !lineCR && |frame| > 3 && Storage()
      requires sessionBytes <= SESSION_BYTES && responses <= RESPONSES && work < WORK_UNITS
      modifies this`mode, this`state, this`depth, this`tokens, this`phase, this`flagsList, this`uidCount, this`uid,
        this`flags, this`structure
      ensures Took(ThirdSpace(old(MachineIn(InLine(2, false)))), err)
    {
      hide JudgePrefix;
      match JudgePrefix(frame) {
        case BadNumber =>
          return Some(Protocol);
        case FetchPrefix =>
          StartFetchLocked();
          err := FetchFeasibleLocked();
        case NotFetch =>
          err := LineRoomLocked();
      }
    }

    /** One octet of a flat line, already appended to the frame. */
    method LineByteLocked(value: byte) returns (err: Option<Code>)
      requires terminal.None? && mode == OnLine && |frame| > lineSpaces && (lineCR ==> |frame| >= 2) && Storage()
      requires frame[0] == STAR && value == SP ==> |frame| > lineSpaces + 1
      requires sessionBytes <= SESSION_BYTES && responses <= RESPONSES && work < WORK_UNITS
      modifies this`work, this`pending, this`mode, this`log, this`lineSpaces, this`lineCR, this`state, this`depth,
        this`tokens, this`phase, this`flagsList, this`uidCount, this`uid, this`flags, this`structure
      ensures Took(LineByte(old(MachineIn(InLine(lineSpaces, lineCR))), old(lineSpaces), old(lineCR), value), err)
    {
      hide JudgePrefix, ControlLine, CompleteLine, ThirdSpace;
      if lineCR {
        if value != LF {
          return Some(Protocol);
        }
        err := CompleteLineLocked();
        return;
      }
      if value == CR {
        lineCR := true;
      } else if value == LF {
        return Some(Protocol);
      } else if value == SP && frame[0] == STAR {
        lineSpaces := lineSpaces + 1;
        if lineSpaces == 3 {
          err := ThirdSpaceLocked();
          return;
        }
      }
      err := LineRoomLocked();
    }

    // ---- Input ----

    /** Grows raw storage for one more octet, never past one complete frame. */
    method GrowFrameLocked()
      requires Storage() && |frame| < FRAME_BYTES
      modifies this`frameCapacity
      ensures |frame| < frameCapacity <= FRAME_BYTES
    {
      if |frame| < frameCapacity {
        return;
      }
      var doubled := if 2 * frameCapacity > 256 then 2 * frameCapacity else 256;
      frameCapacity := if doubled < FRAME_BYTES then doubled else FRAME_BYTES;
    }

    method StartResponseLocked()
      modifies this`responses, this`mode, this`frame, this`lineSpaces, this`lineCR
      ensures responses == old(responses) + 1 && mode == OnLine && frame == [] && lineSpaces == 0 && !lineCR
    {
      responses := responses + 1;
      mode := OnLine;
      frame := [];
      lineSpaces := 0;
      lineCR := false;
    }

    /** One octet of a FETCH, already appended to the frame. */
    method FeedFetchLocked(value: byte) returns (err: Option<Code>)
      requires terminal.None? && mode == OnFetch && Budgeted() && Storage()
      requires sessionBytes <= SESSION_BYTES && responses <= RESPONSES
      requires frame != [] && frame[|frame| - 1] == value && (state.FetchAtom? ==> atomStart < |frame|)
      requires FetchScan.Valid(ScanAt(|frame| - 1))
      modifies this`tokens, this`work, this`depth, this`previous, this`phase, this`flagsList, this`state,
        this`literal, this`digits, this`atomStart, this`item, this`uidCount, this`flags, this`structure, this`uid,
        this`dispatch, this`pending, this`mode, this`log
      ensures var s0 := old(ScanAt(|frame| - 1)); Took(FetchByte(old(MachineIn(InFetch(s0))), s0, value), err)
    {
      hide ScanByte, Need, Closing, Ok, CompleteFetch, Feasible, FetchByte, ScanAt, FetchScan.Valid, Nearer;
      ghost var s0 := ScanAt(|frame| - 1);
      ghost var m0 := MachineIn(InFetch(s0));
      ghost var v := Capped(ScanByte(s0, value), tokens, work);
      FetchByteIs(m0, s0, value);
      ScanTokens(|frame| - 1);
      err := FetchByteLocked(value);
      if v.Next? && v.scan.lex.Finished? {
        assert m0.(work := m0.work + v.scan.tokens - s0.tokens) == m0;
        assert Took(CompleteFetch(m0, v.scan), err);
      }
      if err.None? && mode == OnFetch {
        ScanTokens(|frame|);
        FeasibleSame(m0.(work := work), MachineIn(AtBoundary), ScanAt(|frame|));
        err := FetchFeasibleLocked();
      }
    }

    /** Counts and stores one octet. */
    method AppendLocked(value: byte)
      requires Storage() && |frame| < FRAME_BYTES
      modifies this`sessionBytes, this`frame, this`frameCapacity
      ensures Storage() && frame == old(frame) + [value] && sessionBytes == old(sessionBytes) + 1
      ensures frame[..|frame| - 1] == old(frame)
    {
      sessionBytes := sessionBytes + 1;
      GrowFrameLocked();
      frame := frame + [value];
    }

    /** One octet of a line, whose response may have started just now. */
    method FeedLineLocked(value: byte) returns (err: Option<Code>)
      requires terminal.None? && mode == OnLine && Storage()
      requires (frame == [] && lineSpaces == 0 && !lineCR) || |frame| > lineSpaces
      requires |frame| + 1 <= CONTROL_BYTES && sessionBytes < SESSION_BYTES && responses <= RESPONSES && work < WORK_UNITS
      modifies this
      ensures Took(LineByte(Append(old(MachineIn(InLine(lineSpaces, lineCR))), value), old(lineSpaces), old(lineCR), value), err)
    {
      hide LineByte;
      AppendLocked(value);
      err := LineByteLocked(value);
    }

    /** One octet of a FETCH. */
    method FeedListLocked(value: byte) returns (err: Option<Code>)
      requires Valid() && terminal.None? && mode == OnFetch && |frame| < FRAME_BYTES && sessionBytes < SESSION_BYTES
      requires Budgeted()
      modifies this
      ensures Took(FetchByte(Append(old(Model()), value), old(ScanAt(|frame|)), value), err)
    {
      hide FetchByte, ScanByte, Need, Closing, Took, LineRoom, Feasible;
      ghost var s0 := ScanAt(|frame|);
      ghost var before := frame;
      AppendLocked(value);
      assert state.FetchAtom? ==> frame[atomStart..|frame| - 1] == before[atomStart..|before|];
      assert ScanAt(|frame| - 1) == s0;
      err := FeedFetchLocked(value);
    }

    /** One octet of source input. */
    method FeedLocked(value: byte) returns (err: Option<Code>)
      requires Valid() && terminal.None?
      modifies this
      ensures Took(Feed(old(Model()), value), err)
    {
      hide FetchByte, LineByte, ScanByte, Feed;
      FeedIs(Model(), value);
      if sessionBytes == SESSION_BYTES {
        return Some(BoundsExceeded);
      }
      if mode == OnFetch {
        err := FeedListLocked(value);
        return;
      }
      if mode == BetweenResponses {
        if responses == RESPONSES || work == WORK_UNITS {
          return Some(BoundsExceeded);
        }
        StartResponseLocked();
      }
      err := FeedLineLocked(value);
    }

    // ---- Calls ----

    constructor (selectedUID: nat)
      requires selectedUID > 0
      ensures Valid() && Model() == Initial(selectedUID)
    {
      this.selectedUID := selectedUID;
      dispatch := Idle;
      pending := [];
      terminal := None;
      sessionBytes, responses, work := 0, 0, 0;
      mode := BetweenResponses;
      frame, frameCapacity := [], 0;
      lineSpaces, lineCR := 0, false;
      state := FetchOpen;
      depth, tokens := 0, 0;
      previous, phase, item := AfterOpen, ItemName, UidItem;
      flagsList := false;
      atomStart, literal, digits := 0, 0, 0;
      uidCount, uid, flags, structure := 0, 0, 0, 0;
      log, out := [], [];
    }

    /** Makes err final and drops the raw frame. */
    method RefuseLocked(err: Code)
      modifies this`terminal, this`frame, this`frameCapacity
      ensures terminal == Some(err) && frame == [] && frameCapacity == 0
    {
      terminal := Some(err);
      frame, frameCapacity := [], 0;
    }

    /** Ends a running reader. */
    method EndLocked(err: Code)
      requires Valid() && terminal.None?
      modifies this
      ensures Valid() && Model() == Refuse(old(Model()), err)
    {
      RefuseLocked(err);
    }

    /** Records the single structure dispatch; a second one is a refusal. */
    method BeginDispatch() returns (err: Option<Code>)
      requires Valid()
      modifies this
      ensures Valid() && Model() == Step(old(Model()), Begin)
      ensures err == terminal
    {
      hide Feed;
      if terminal.Some? {
        return terminal;
      }
      if dispatch != Idle {
        EndLocked(Protocol);
        return terminal;
      }
      dispatch := Active;
      return None;
    }

    /** Ends the reader with the context category unless it already ended. */
    method AbortWith(canceled: bool) returns (err: Option<Code>)
      requires Valid()
      modifies this
      ensures Valid() && Model() == Step(old(Model()), Abort(canceled))
      ensures err == terminal && err.Some?
    {
      hide Feed;
      if terminal.None? {
        EndLocked(if canceled then Canceled else TimedOut);
      }
      return terminal;
    }

    method SourceFailedLocked(failure: Failure)
      requires Valid() && terminal.None?
      modifies this
      ensures Valid() && Model() == Step(old(Model()), SourceFailed(failure))
    {
      hide Feed;
      match failure
      case SourceCanceled => EndLocked(Canceled);
      case SourceDeadline => EndLocked(TimedOut);
      case SourceOther => EndLocked(if mode != BetweenResponses then Protocol else Unreachable);
    }

    /** Feeds a delivered chunk, up to the octet that ends the reader. */
    method DeliverLocked(chunk: bytes)
      requires Valid()
      modifies this
      ensures Valid() && Model() == Play(old(Model()), Inputs(chunk))
    {
      hide Feed, Step, Ok;
      ghost var es := Inputs(chunk);
      assert es[..|es|] == es;
      assert es[..0] == [];
      var i := 0;
      while i < |chunk| && terminal.None?
        invariant i <= |chunk| && Valid()
        invariant Model() == Play(old(Model()), es[..i])
      {
        assert es[..i + 1] == es[..i] + [es[i]];
        PlayConcat(old(Model()), es[..i], [es[i]]);
        FeedNext(chunk[i]);
        i := i + 1;
      }
      if i < |chunk| {
        assert es == es[..i] + es[i..];
        PlayConcat(old(Model()), es[..i], es[i..]);
        EndedDiscards(Model(), chunk[i..]);
        assert es[i..] == Inputs(chunk[i..]);
      }
    }

    method FeedNext(value: byte)
      requires Valid() && terminal.None?
      modifies this
      ensures Valid() && Model() == Play(old(Model()), [Input(value)])
    {
      hide Feed;
      PlayOne(Model(), Input(value));
      ghost var m := Model();
      RefusedIs(m, value);
      var err := FeedLocked(value);
      if err.Some? {
        RefuseLocked(err.value);
      }
    }

    /** The calls of other goroutines while a read waits for its source. */
    method CallsMeanwhile(calls: seq<Event>)
      requires Valid() && forall e :: e in calls ==> IsCall(e)
      modifies this
      ensures Valid() && Model() == Play(old(Model()), calls)
    {
      hide Step, Ok;
      assert calls[..|calls|] == calls;
      assert calls[..0] == [];
      for i := 0 to |calls|
        invariant Valid() && Model() == Play(old(Model()), calls[..i])
      {
        assert calls[..i + 1] == calls[..i] + [calls[i]];
        PlayConcat(old(Model()), calls[..i], [calls[i]]);
        PlayOne(Model(), calls[i]);
        assert IsCall(calls[i]);
        var err;
        if calls[i].Begin? {
          err := BeginDispatch();
        } else {
          err := AbortWith(calls[i].canceled);
        }
      }
    }

    /** One wait for the source: what other goroutines called meanwhile, then
        the delivered chunk, then the source's error if it reported one. */
    method WaitForSource(wait: Wait)
      requires Valid() && WaitOk(wait)
      modifies this
      ensures Valid() && Model() == Play(old(Model()), Expand(wait))
    {
      hide Step, Ok, Inputs;
      ghost var m := Model();
      CallsMeanwhile(wait.meanwhile);
      DeliverLocked(wait.chunk);
      PlayConcat(m, wait.meanwhile, Inputs(wait.chunk));
      if wait.failure.Some? {
        var failure := wait.failure.value;
        PlayConcat(m, wait.meanwhile + Inputs(wait.chunk), [SourceFailed(failure)]);
        PlayOne(Model(), SourceFailed(failure));
        if terminal.None? {
          SourceFailedLocked(failure);
        } else {
          FailureAfterEnd(Model(), failure);
        }
      } else {
        assert Expand(wait) == wait.meanwhile + Inputs(wait.chunk);
      }
    }

    /** Moves approved bytes into the caller's buffer. */
    method TakeLocked(size: nat) returns (data: bytes)
      requires Valid()
      modifies this`pending, this`out
      ensures Valid() && Model() == TakeBytes(old(Model()), size) && out == old(out) + data
    {
      var count := if size < |pending| then size else |pending|;
      data := pending[..count];
      out := out + data;
      pending := pending[count..];
    }

    /** One step of the source or the decoder by itself. */
    method Happen(e: Event)
      requires Valid() && (e.Input? || e.SourceFailed? || e.Take?)
      modifies this
      ensures Valid() && Model() == Step(old(Model()), e)
    {
      hide Ok, Play, Feed;
      match e {
        case Input(b) =>
          assert Inputs([b]) == [Input(b)];
          PlayOne(Model(), e);
          DeliverLocked([b]);
        case SourceFailed(failure) =>
          if terminal.None? {
            SourceFailedLocked(failure);
          }
        case Take(limit) =>
          var _ := TakeLocked(limit);
      }
    }

    /** What a call of Read returned, given the machine m it stopped at. */
    ghost predicate Returned(m: Machine, size: nat, result: ReadResult)
      requires Valid()
      reads this
    {
      match result
      case Bytes(data) => m.pending != [] && Model() == TakeBytes(m, size) && out == m.out + data
      case Failed(code) => m.pending == [] && m.terminal == Some(code) && Model() == m
      case Nothing => m.pending == [] && m.terminal.None? && size == 0 && Model() == m
      case Blocked => m.pending == [] && m.terminal.None? && size > 0 && Model() == m
    }

    /** Returns approved bytes before any terminal error, never both, and waits
        for the source only when it has neither. es is what the source and the
        other goroutines did during the call, and rest what they still will. */
    method Read(size: nat, script: seq<Wait>) returns (result: ReadResult, rest: seq<Wait>, ghost es: seq<Event>)
      requires Valid() && forall w :: w in script ==> WaitOk(w)
      modifies this
      ensures Valid()
      ensures ExpandAll(script) == es + ExpandAll(rest)
      ensures Returned(Play(old(Model()), es), size, result)
      ensures result.Blocked? ==> rest == []
      ensures old(pending) != [] || old(terminal).Some? || size == 0 ==> es == []
    {
      hide Step, Ok, Play, Expand, WaitOk, ChunkOctets;
      rest, es := script, [];
      PlayNothing(Model());
      while true
        invariant Valid() && (forall w :: w in rest ==> WaitOk(w))
        invariant ExpandAll(script) == es + ExpandAll(rest)
        invariant Model() == Play(old(Model()), es)
        invariant old(pending) != [] || old(terminal).Some? || size == 0 ==> es == []
        decreases ChunkOctets(rest) + |rest|
      {
        if |pending| > 0 {
          var data := TakeLocked(size);
          return Bytes(data), rest, es;
        }
        if terminal.Some? {
          return Failed(terminal.value), rest, es;
        }
        if size == 0 {
          return Nothing, rest, es;
        }
        if rest == [] {
          return Blocked, rest, es;
        }
        SessionRoom();
        var room := SESSION_BYTES - sessionBytes + 1;
        var limit := if room < READ_BYTES then room else READ_BYTES;
        var wait, later := Delivery(rest, limit);
        PlayConcat(old(Model()), es, Expand(wait));
        Assoc(es, Expand(wait), ExpandAll(later));
        es := es + Expand(wait);
        rest := later;
        WaitForSource(wait);
      }
    }

    lemma ScanTokens(end: nat)
      requires state.FetchAtom? ==> atomStart <= end <= |frame|
      ensures ScanAt(end).tokens == tokens
    {
    }

    lemma SessionRoom()
      requires Valid()
      ensures sessionBytes <= SESSION_BYTES || terminal.Some?
    {
    }
  }
  /** The reader of a source for one selected UID; both must be given. */
  method NewStructureQuarantine(present: bool, selectedUID: nat) returns (q: Quarantine?)
    ensures q == null <==> !present || selectedUID == 0
    ensures q != null ==> fresh(q) && q.Valid() && q.Model() == Initial(selectedUID)
  {
    if !present || selectedUID == 0 {
      return null;
    }
    q := new Quarantine(selectedUID);
  }
}
