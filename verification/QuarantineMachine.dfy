/** The structure quarantine as a state machine over its atomic steps: one
    input octet, a source failure, the one dispatch, an abort, and a read of
    approved bytes (bridge/structure_quarantine.go:140-398, 653-710). Each step
    is one critical section of the reader's mutex, so a run of steps is any
    interleaving of the reader with dispatch and abort, under any chunking. */
module QuarantineMachine {
  import opened Octets
  import opened Wrappers
  import opened QuarantineLexis
  import opened FetchScan

  const FRAME_BYTES: nat := 65536
  const FETCH_TOKENS: nat := 4096
  const CONTROL_BYTES: nat := 4096
  const SESSION_BYTES: nat := 131072
  const RESPONSES: nat := 64
  const WORK_UNITS: nat := 8192

  datatype Dispatch = Idle | Active | Delivered

  datatype Mode = AtBoundary | InLine(spaces: nat, cr: bool) | InFetch(scan: Scan)

  datatype FrameKind = Control | FlagsOnly | Structure

  /** One completely framed response that was not refused. */
  datatype Framed = Framed(kind: FrameKind, text: bytes)

  /** log and out are history: every frame admitted so far, and every byte
      returned to the caller so far. */
  datatype Machine = Machine(
    selected: nat,
    dispatch: Dispatch,
    terminal: Option<Code>,
    sessionBytes: nat,
    responses: nat,
    work: nat,
    mode: Mode,
    frame: bytes,
    pending: bytes,
    log: seq<Framed>,
    out: bytes)

  function Initial(selected: nat): Machine {
    Machine(selected, Idle, None, 0, 0, 0, AtBoundary, [], [], [], [])
  }

  /** Every later octet of this FETCH has room for its least completion. */
  predicate Feasible(m: Machine, scan: Scan) {
    && |m.frame| + Need(scan) <= FRAME_BYTES
    && m.sessionBytes + Need(scan) <= SESSION_BYTES
    && scan.tokens + Closing(scan) <= FETCH_TOKENS
    && m.work + Closing(scan) <= WORK_UNITS
  }

  function LineNeed(cr: bool): nat {
    if cr then 1 else 2
  }

  predicate LineRoom(m: Machine, cr: bool) {
    |m.frame| + LineNeed(cr) <= CONTROL_BYTES && m.sessionBytes + LineNeed(cr) <= SESSION_BYTES
  }

  /** The machine's states: budgets are never exceeded, and an ended machine
      holds nothing of the frame it refused. */
  ghost predicate Ok(m: Machine) {
    && m.sessionBytes <= SESSION_BYTES && m.responses <= RESPONSES && m.work <= WORK_UNITS
    && (m.terminal.Some? ==> m.mode.AtBoundary? && m.sessionBytes == m.responses == m.work == 0)
    && match m.mode
       case AtBoundary => m.frame == []
       case InLine(spaces, cr) => |m.frame| > spaces && LineRoom(m, cr) && m.work < WORK_UNITS
       case InFetch(scan) => m.frame != [] && Valid(scan) && !scan.lex.Finished? && Feasible(m, scan)
  }

  /** A running machine within its session budgets. */
  ghost predicate Running(m: Machine) {
    m.terminal.None? && m.sessionBytes <= SESSION_BYTES && m.responses <= RESPONSES && m.work <= WORK_UNITS
  }

  /** Ends the machine. The counters of an ended machine are never read again. */
  function Refuse(m: Machine, code: Code): (r: Machine)
    ensures Ok(r)
  {
    m.(terminal := Some(code), frame := [], mode := AtBoundary, sessionBytes := 0, responses := 0, work := 0)
  }

  /** Closes the current frame and makes it ready to be read unless it is
      consumed. */
  function Admit(m: Machine, kind: FrameKind): (r: Machine)
    ensures Running(m) ==> Ok(r)
  {
    m.(mode := AtBoundary,
       frame := [],
       log := m.log + [Framed(kind, m.frame)],
       pending := if kind == FlagsOnly then m.pending else m.pending + m.frame)
  }

  function CompleteLine(m: Machine): (r: Machine)
    requires |m.frame| >= 2
    ensures Running(m) && m.work < WORK_UNITS ==> Ok(r)
  {
    if ControlLine(m.frame[..|m.frame| - 2]) then Admit(m.(work := m.work + 1), Control) else Refuse(m, Protocol)
  }

  function CheckLine(m: Machine, spaces: nat, cr: bool): (r: Machine)
    ensures Running(m) && m.work < WORK_UNITS && |m.frame| > spaces ==> Ok(r)
  {
    if LineRoom(m, cr) then m.(mode := InLine(spaces, cr)) else Refuse(m, BoundsExceeded)
  }

  function CheckFetch(m: Machine, scan: Scan): (r: Machine)
    ensures Running(m) && m.frame != [] && Valid(scan) && !scan.lex.Finished? ==> Ok(r)
  {
    if Feasible(m, scan) then m.(mode := InFetch(scan)) else Refuse(m, BoundsExceeded)
  }

  /** The third space of an untagged line decides whether it is a FETCH. */
  function ThirdSpace(m: Machine): (r: Machine)
    requires |m.frame| >= 3
    ensures Running(m) && m.work < WORK_UNITS && |m.frame| > 3 ==> Ok(r)
  {
    match JudgePrefix(m.frame)
    case BadNumber => Refuse(m, Protocol)
    case FetchPrefix => CheckFetch(m, START)
    case NotFetch => CheckLine(m, 3, false)
  }

  /** One octet of a flat line, already appended to the frame. */
  function LineByte(m: Machine, spaces: nat, cr: bool, b: byte): (r: Machine)
    requires |m.frame| > spaces && (cr ==> |m.frame| >= 2)
    ensures Running(m) && m.work < WORK_UNITS && (b == SP && m.frame[0] == STAR ==> |m.frame| > spaces + 1) ==> Ok(r)
  {
    if cr then
      if b == LF then CompleteLine(m) else Refuse(m, Protocol)
    else if b == CR then CheckLine(m, spaces, true)
    else if b == LF then Refuse(m, Protocol)
    else if b == SP && m.frame[0] == STAR then
      if spaces == 2 then ThirdSpace(m) else CheckLine(m, spaces + 1, false)
    else CheckLine(m, spaces, false)
  }

  /** Classifies one completely framed FETCH. */
  function CompleteFetch(m: Machine, scan: Scan): (r: Machine)
    ensures Running(m) ==> Ok(r)
  {
    if scan.structure then
      if scan.uidNamed && scan.uid == m.selected && m.dispatch == Active then
        Admit(m.(dispatch := Delivered), Structure)
      else
        Refuse(m, Protocol)
    else if scan.flags then
      Admit(m, FlagsOnly)
    else
      Refuse(m, Protocol)
  }

  /** A step of the lexical machine under the token and work budgets. */
  function Capped(v: Verdict, tokens: nat, work: nat): Verdict {
    if v.Next? && (v.scan.tokens > FETCH_TOKENS || work + v.scan.tokens > WORK_UNITS + tokens) then
      Refused(BoundsExceeded)
    else
      v
  }

  /** One octet of a FETCH list, already appended to the frame. */
  function FetchByte(m: Machine, scan: Scan, b: byte): (r: Machine)
    requires Valid(scan)
    ensures Running(m) && m.frame != [] ==> Ok(r)
  {
    match Capped(ScanByte(scan, b), scan.tokens, m.work)
    case Refused(code) => Refuse(m, code)
    case Next(scan') =>
      var worked := m.(work := m.work + scan'.tokens - scan.tokens);
      if scan'.lex.Finished? then CompleteFetch(worked, scan') else CheckFetch(worked, scan')
  }

  /** Counts and stores one octet. */
  function Append(m: Machine, b: byte): Machine {
    m.(sessionBytes := m.sessionBytes + 1, frame := m.frame + [b])
  }

  /** Starts a response at a boundary. */
  function Start(m: Machine): Machine {
    if m.mode.AtBoundary? then m.(responses := m.responses + 1, mode := InLine(0, false)) else m
  }

  predicate Exhausted(m: Machine) {
    || m.sessionBytes == SESSION_BYTES
    || (m.mode.AtBoundary? && (m.responses == RESPONSES || m.work == WORK_UNITS))
  }

  /** One input octet. An ended machine discards it. */
  function Feed(m: Machine, b: byte): (r: Machine)
    requires Ok(m)
    ensures Ok(r)
  {
    if m.terminal.Some? then m
    else if Exhausted(m) then Refuse(m, BoundsExceeded)
    else
      var appended := Append(Start(m), b);
      match appended.mode
      case AtBoundary => m
      case InLine(spaces, cr) => LineByte(appended, spaces, cr, b)
      case InFetch(scan) => FetchByte(appended, scan, b)
  }

  function FeedAll(m: Machine, w: bytes): (r: Machine)
    requires Ok(m)
    ensures Ok(r)
    decreases |w|
  {
    if w == [] then m else FeedAll(Feed(m, w[0]), w[1..])
  }
}
