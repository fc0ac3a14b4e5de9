/** Exactly which frames the quarantine admits: the sentences of the grammar
    whose whole length, tokens and work fit the budgets. The early refusal of
    frames that cannot fit never refuses one that does. */
module QuarantineExact {
  import opened Octets
  import opened Sequences
  import opened Wrappers
  import opened QuarantineLexis
  import ControlGrammar
  import opened FetchScan
  import opened FetchGrammar
  import opened FetchFrame
  import opened QuarantineMachine
  import opened QuarantineRuns
  import opened QuarantineSafety

  lemma {:induction false} FeedConcat(m: Machine, a: bytes, b: bytes)
    requires Ok(m)
    ensures FeedAll(m, a + b) == FeedAll(FeedAll(m, a), b)
    decreases |a|
  {
    hide Feed;
    if a == [] {
      assert a + b == b;
    } else {
      assert (a + b)[1..] == a[1..] + b;
      FeedConcat(Feed(m, a[0]), a[1..], b);
    }
  }

  lemma FeedOne(m: Machine, b: byte)
    requires Ok(m)
    ensures FeedAll(m, [b]) == Feed(m, b)
  {
    hide Feed;
    assert [b][1..] == [];
  }

  lemma {:induction false} EndedStays(m: Machine, w: bytes)
    requires Ok(m) && m.terminal.Some?
    ensures FeedAll(m, w) == m
    decreases |w|
  {
    if w != [] {
      EndedStays(m, w[1..]);
    }
  }

  // ---- The list of a FETCH ----

  /** The octets a run appends and the work it counts. */
  function Fed(m: Machine, w: bytes, tokens: nat): Machine {
    m.(sessionBytes := m.sessionBytes + |w|, frame := m.frame + w, work := m.work + tokens)
  }

  /** The whole frame fits every budget. */
  ghost predicate Fits(m: Machine, scan: Scan, w: bytes)
    requires Valid(scan) && Completes(scan, w)
  {
    var tokens := Run(scan, w).scan.tokens;
    && |m.frame| + |w| <= FRAME_BYTES
    && m.sessionBytes + |w| <= SESSION_BYTES
    && tokens <= FETCH_TOKENS
    && m.work + tokens - scan.tokens <= WORK_UNITS
  }

  lemma FinishedFrom(scan: Scan, b: byte)
    requires Valid(scan) && ScanByte(scan, b).Next? && ScanByte(scan, b).scan.lex.Finished?
    ensures scan.lex.AtEndLF? && ScanByte(scan, b).scan.tokens == scan.tokens
  {
  }

  /** The machine after one more octet of a list, before it is judged. */
  function AfterOctet(m: Machine, b: byte, tokens: nat): Machine {
    Append(m, b).(work := m.work + tokens)
  }

  /** Whether the budgets let the machine go on to next. */
  predicate GoesOn(m1: Machine, next: Scan) {
    next.tokens <= FETCH_TOKENS && m1.work <= WORK_UNITS && (next.lex.Finished? || Feasible(m1, next))
  }

  lemma FetchStep(m: Machine, scan: Scan, b: byte)
    requires Ok(m) && m.terminal.None? && m.mode == InFetch(scan) && ScanByte(scan, b).Next?
    ensures var next := ScanByte(scan, b).scan;
            var m1 := AfterOctet(m, b, next.tokens - scan.tokens);
            Feed(m, b) ==
              if !GoesOn(m1, next) then Refuse(m, BoundsExceeded)
              else if next.lex.Finished? then CompleteFetch(m1, next)
              else m1.(mode := InFetch(next))
    ensures Feed(m, b) == FetchByte(Append(m, b), scan, b)
  {
    hide LineByte, ScanByte, CompleteFetch;
    NeedPositive(scan);
    hide Need, Closing;
  }

  lemma NeedPositive(scan: Scan)
    requires !scan.lex.Finished?
    ensures Need(scan) >= 1
  {
  }

  lemma FitsStep(m: Machine, scan: Scan, w: bytes)
    requires Ok(m) && m.terminal.None? && m.mode == InFetch(scan) && Completes(scan, w)
    ensures w != [] && ScanByte(scan, w[0]).Next?
    ensures var next := ScanByte(scan, w[0]).scan;
            var m1 := AfterOctet(m, w[0], next.tokens - scan.tokens);
            && Completes(next, w[1..]) && Run(next, w[1..]) == Run(scan, w)
            && (Fits(m, scan, w) <==> Fits(m1, next, w[1..]))
            && (Fits(m, scan, w) ==> GoesOn(m1, next))
            && (next.lex.Finished? ==> Fits(m, scan, w) && w[1..] == [])
  {
    hide ScanByte;
    CompletesStep(scan, w);
    var next := ScanByte(scan, w[0]).scan;
    NeedIsLowerBound(next, w[1..]);
    hide Run;
    assert Run(scan, w) == Run(next, w[1..]) by { RunStep(scan, w[0], w[1..]); }
    if next.lex.Finished? {
      FinishedFrom(scan, w[0]);
      FinishedStops(next, w[1..]);
      RunNothing(next);
    }
  }

  /** What the machine does with a list that the lexical machine completes. */
  ghost function ListRead(m: Machine, scan: Scan, w: bytes): Machine
    requires Valid(scan) && Completes(scan, w) && Run(scan, w).scan.tokens >= scan.tokens
  {
    var final := Run(scan, w).scan;
    if Fits(m, scan, w) then CompleteFetch(Fed(m, w, final.tokens - scan.tokens), final) else Refuse(m, BoundsExceeded)
  }

  lemma TokensGrow(scan: Scan, w: bytes)
    requires Valid(scan) && Completes(scan, w)
    ensures Run(scan, w).scan.tokens >= scan.tokens
  {
    NeedIsLowerBound(scan, w);
  }

  lemma ListReadStep(m: Machine, scan: Scan, w: bytes)
    requires Ok(m) && m.terminal.None? && m.mode == InFetch(scan) && Completes(scan, w)
    requires w != [] && ScanByte(scan, w[0]).Next?
    ensures var next := ScanByte(scan, w[0]).scan;
            var m1 := AfterOctet(m, w[0], next.tokens - scan.tokens);
            && Completes(next, w[1..])
            && Run(scan, w).scan.tokens >= scan.tokens
            && Run(next, w[1..]).scan.tokens >= next.tokens
            && ListRead(m, scan, w) == ListRead(m1, next, w[1..])
            && (!GoesOn(m1, next) ==> ListRead(m, scan, w) == Refuse(m, BoundsExceeded))
            && (GoesOn(m1, next) && next.lex.Finished? ==> w[1..] == [] && ListRead(m, scan, w) == CompleteFetch(m1, next))
  {
    TokensGrow(scan, w);
    hide Run, ScanByte, CompleteFetch, Need, Closing, GoesOn;
    FitsStep(m, scan, w);
    var next := ScanByte(scan, w[0]).scan;
    TokensGrow(next, w[1..]);
    FedStep(m, w, next.tokens - scan.tokens, Run(next, w[1..]).scan.tokens - next.tokens);
    if next.lex.Finished? {
      RunNothing(next);
      var m1 := AfterOctet(m, w[0], next.tokens - scan.tokens);
      assert Fed(m1, [], 0) == m1 by { assert m1.frame + [] == m1.frame; }
    }
  }

  /** A list that the lexical machine completes is read to its end when it
      fits, and refused for its bounds otherwise: looking ahead to the least
      completion refuses nothing that would have fit. */
  lemma {:induction false} FeedList(m: Machine, scan: Scan, w: bytes)
    requires Ok(m) && m.terminal.None? && m.mode == InFetch(scan) && Completes(scan, w)
    ensures Run(scan, w).scan.tokens >= scan.tokens && FeedAll(m, w) == ListRead(m, scan, w)
    decreases |w|
  {
    hide Run, ScanByte, CompleteFetch, Feed, Need, Closing, ListRead, Fits, Completes;
    TokensGrow(scan, w);
    CompletesStep(scan, w);
    ListReadStep(m, scan, w);
    FetchStep(m, scan, w[0]);
    var next := ScanByte(scan, w[0]).scan;
    var rest := w[1..];
    var m1 := AfterOctet(m, w[0], next.tokens - scan.tokens);
    if !GoesOn(m1, next) {
      EndedStays(Refuse(m, BoundsExceeded), rest);
    } else if !next.lex.Finished? {
      var m2 := m1.(mode := InFetch(next));
      FeedList(m2, next, rest);
      ListReadMode(m2, m1, next, rest);
    }
  }

  lemma ListReadMode(a: Machine, b: Machine, scan: Scan, w: bytes)
    requires Valid(scan) && Completes(scan, w) && Run(scan, w).scan.tokens >= scan.tokens
    requires a == b.(mode := a.mode)
    ensures ListRead(a, scan, w) == ListRead(b, scan, w)
  {
    hide Run;
  }

  lemma FedStep(m: Machine, w: bytes, first: nat, later: nat)
    requires w != []
    ensures Fed(m, w, first + later) == Fed(AfterOctet(m, w[0], first), w[1..], later)
  {
    assert m.frame + w == m.frame + [w[0]] + w[1..];
  }

  // ---- Flat lines ----

  /** The machine inside a line, after more of its octets. */
  function Lined(m: Machine, text: bytes, spaces: nat): Machine {
    m.(sessionBytes := m.sessionBytes + |text|, frame := m.frame + text, mode := InLine(spaces, false))
  }

  /** A running machine inside a line, with room for more of its octets. */
  ghost predicate LineFits(m: Machine, more: nat) {
    && Ok(m) && m.terminal.None? && m.mode.InLine? && !m.mode.cr
    && |m.frame| + more + 2 <= CONTROL_BYTES
    && m.sessionBytes + more + 2 <= SESSION_BYTES
  }

  lemma PlainStep(m: Machine, b: byte)
    requires LineFits(m, 1) && b != CR && b != LF && (b == SP && m.frame[0] == STAR ==> m.mode.spaces != 2)
    ensures Feed(m, b) == Lined(m, [b], if b == SP && m.frame[0] == STAR then m.mode.spaces + 1 else m.mode.spaces)
  {
    hide FetchByte, ControlLine, JudgePrefix;
  }

  lemma {:induction false} FeedPlain(m: Machine, text: bytes)
    requires LineFits(m, |text|) && SP !in text && NoBreaks(text)
    ensures FeedAll(m, text) == Lined(m, text, m.mode.spaces)
    decreases |text|
  {
    hide Feed;
    if text == [] {
      assert m.frame + text == m.frame;
    } else {
      PlainStep(m, text[0]);
      FeedPlain(Lined(m, [text[0]], m.mode.spaces), text[1..]);
      assert m.frame + [text[0]] + text[1..] == m.frame + text;
    }
  }

  /** A boundary with room for the first octets of a response. */
  ghost predicate Begins(m: Machine, more: nat) {
    && Ok(m) && m.terminal.None? && m.mode.AtBoundary? && m.responses < RESPONSES && m.work < WORK_UNITS
    && m.sessionBytes + more + 2 <= SESSION_BYTES
  }

  lemma FirstStep(m: Machine, b: byte)
    requires Begins(m, 1) && b != CR && b != LF
    requires b != SP
    ensures Feed(m, b) == Lined(m.(responses := m.responses + 1), [b], 0)
  {
    hide FetchByte, ControlLine, JudgePrefix;
  }

  lemma HeadJudged(number: bytes, name: bytes)
    requires HeadWords(number, name)
    ensures JudgePrefix(Head(number, name)) == FetchPrefix
  {
    HeadIsPlain(number, name);
    hide UpperIs, DecimalValue;
    var h := Head(number, name);
    var x := h[2..|h| - 1];
    assert x == number + [SP] + name;
    assert x[|number|] == SP && forall j :: 0 <= j < |number| ==> x[j] == number[j];
    assert Find(x, SP) == |number|;
    assert x[..|number|] == number && x[|number| + 1..] == name;
  }

  lemma FeedStar(m: Machine)
    requires Begins(m, 2)
    ensures FeedAll(m, [STAR, SP]) == Lined(m.(responses := m.responses + 1), [STAR, SP], 1)
  {
    hide Feed, FeedAll;
    FirstStep(m, STAR);
    var m1 := Lined(m.(responses := m.responses + 1), [STAR], 0);
    PlainStep(m1, SP);
    FeedOne(m, STAR);
    FeedOne(m1, SP);
    FeedConcat(m, [STAR], [SP]);
    assert [STAR] + [SP] == [STAR, SP];
  }

  /** A word and the space after it, when that is not the third space. */
  lemma FeedWord(m: Machine, text: bytes)
    requires LineFits(m, |text| + 1) && SP !in text && NoBreaks(text) && m.frame[0] == STAR && m.mode.spaces != 2
    ensures FeedAll(m, text + [SP]) == Lined(m, text + [SP], m.mode.spaces + 1)
  {
    hide Feed, FeedAll;
    FeedPlain(m, text);
    var m1 := Lined(m, text, m.mode.spaces);
    PlainStep(m1, SP);
    FeedOne(m1, SP);
    FeedConcat(m, text, [SP]);
    assert m.frame + text + [SP] == m.frame + (text + [SP]);
  }

  /** The last word of a FETCH head. */
  lemma FeedName(m: Machine, name: bytes, h: bytes)
    requires LineFits(m, |name| + 1) && SP !in name && NoBreaks(name) && m.frame[0] == STAR && m.mode.spaces == 2
    requires h == m.frame + name + [SP] && JudgePrefix(h) == FetchPrefix
    ensures FeedAll(m, name + [SP]) == CheckFetch(m.(sessionBytes := m.sessionBytes + |name| + 1, frame := h), START)
  {
    hide Feed, FeedAll, CheckFetch, JudgePrefix;
    FeedPlain(m, name);
    var m1 := Lined(m, name, 2);
    HeadEnd(m1, h);
    FeedOne(m1, SP);
    FeedConcat(m, name, [SP]);
  }

  /** A line through the space after its first word. */
  lemma FeedNumber(m: Machine, half: bytes, number: bytes)
    requires half == [STAR, SP] + number + [SP] && Begins(m, |half|) && |half| <= CONTROL_BYTES - 2
    requires SP !in number && NoBreaks(number)
    ensures FeedAll(m, half) == Lined(m.(responses := m.responses + 1), half, 2)
    ensures half[0] == STAR
  {
    hide Feed, FeedAll;
    FeedStar(m);
    var m1 := Lined(m.(responses := m.responses + 1), [STAR, SP], 1);
    FeedWord(m1, number);
    FeedConcat(m, [STAR, SP], number + [SP]);
    assert half == [STAR, SP] + (number + [SP]);
  }

  lemma BeginsSooner(m: Machine, fewer: nat, more: nat)
    requires Begins(m, more) && fewer <= more
    ensures Begins(m, fewer)
  {
  }

  lemma WordsFit(m: Machine, m1: Machine, half: bytes, h: bytes)
    requires Begins(m, |h|) && 2 < |half| < |h| <= CONTROL_BYTES - 2
    requires m1 == Lined(m.(responses := m.responses + 1), half, 2)
    ensures LineFits(m1, |h| - |half|) && m1.frame == half && m1.mode == InLine(2, false)
    ensures m1.(sessionBytes := m1.sessionBytes + |h| - |half|, frame := h)
            == m.(responses := m.responses + 1, sessionBytes := m.sessionBytes + |h|, frame := h, mode := InLine(2, false))
  {
    assert [] + half == half;
  }

  /** A line through its third space, where it is judged to be a FETCH. */
  lemma FeedWords(m: Machine, half: bytes, number: bytes, name: bytes, h: bytes)
    requires half == [STAR, SP] + number + [SP] && h == half + name + [SP]
    requires Begins(m, |h|) && |h| <= CONTROL_BYTES - 2
    requires SP !in number && SP !in name && NoBreaks(number) && NoBreaks(name) && JudgePrefix(h) == FetchPrefix
    ensures FeedAll(m, h) ==
              CheckFetch(m.(responses := m.responses + 1, sessionBytes := m.sessionBytes + |h|, frame := h,
                            mode := InLine(2, false)), START)
  {
    hide Feed, FeedAll, CheckFetch, JudgePrefix, NoBreaks, Begins, LineFits, Lined, Ok;
    BeginsSooner(m, |half|, |h|);
    FeedNumber(m, half, number);
    var m1 := Lined(m.(responses := m.responses + 1), half, 2);
    WordsFit(m, m1, half, h);
    FeedName(m1, name, h);
    FeedConcat(m, half, name + [SP]);
    Assoc(half, name, [SP]);
  }

  /** The head of a FETCH turns the line into a FETCH. */
  lemma FeedHead(m: Machine, number: bytes, name: bytes)
    requires HeadWords(number, name) && Begins(m, |Head(number, name)|)
    ensures var h := Head(number, name);
            FeedAll(m, h) ==
              CheckFetch(m.(responses := m.responses + 1, sessionBytes := m.sessionBytes + |h|, frame := h,
                            mode := InLine(2, false)), START)
  {
    HeadIsPlain(number, name);
    HeadJudged(number, name);
    hide Feed, FeedAll, HeadWords, CheckFetch, JudgePrefix;
    FeedWords(m, [STAR, SP] + number + [SP], number, name, Head(number, name));
  }

  lemma HeadEnd(m: Machine, h: bytes)
    requires LineFits(m, 1) && m.mode.spaces == 2 && m.frame[0] == STAR && h == m.frame + [SP]
    requires JudgePrefix(h) == FetchPrefix
    ensures Feed(m, SP) == CheckFetch(m.(sessionBytes := m.sessionBytes + 1, frame := h), START)
  {
    hide FetchByte, ControlLine, JudgePrefix, CheckFetch;
  }

  // ---- Accounting for the input ----

  lemma FlattenAdmit(m: Machine, kind: FrameKind)
    ensures Flatten(Admit(m, kind).log) == Flatten(m.log) + m.frame
  {
    var log := m.log + [Framed(kind, m.frame)];
    assert log[..|log| - 1] == m.log;
  }

  /** A step of input either keeps its octet, in the frame or with it in the
      log, or ends the machine without admitting anything. */
  lemma FeedAccounts(m: Machine, b: byte)
    requires Ok(m) && m.terminal.None?
    ensures var r := Feed(m, b);
            if r.terminal.None? then
              Flatten(r.log) + r.frame == Flatten(m.log) + m.frame + [b] && r.sessionBytes == m.sessionBytes + 1
            else
              r.log == m.log
  {
    hide Flatten, ControlLine, JudgePrefix, ScanByte;
    if !Exhausted(m) {
      var appended := Append(Start(m), b);
      match appended.mode
      case AtBoundary =>
      case InLine(spaces, cr) =>
        FlattenAdmit(appended.(work := appended.work + 1), Control);
        Regroup(Flatten(m.log), m.frame, [b]);
      case InFetch(scan) =>
        if ScanByte(scan, b).Next? {
          var worked := appended.(work := appended.work + ScanByte(scan, b).scan.tokens - scan.tokens);
          FlattenAdmit(worked, FlagsOnly);
          FlattenAdmit(worked.(dispatch := Delivered), Structure);
        }
        Regroup(Flatten(m.log), m.frame, [b]);
    }
  }

  lemma Regroup(a: bytes, b: bytes, c: bytes)
    ensures a + (b + c) == a + b + c
    ensures a + b + c + [] == a + b + c
  {
  }

  lemma {:induction false} FeedAllAccounts(m: Machine, w: bytes)
    requires Ok(m) && m.terminal.None?
    ensures var r := FeedAll(m, w);
            if r.terminal.None? then
              Flatten(r.log) + r.frame == Flatten(m.log) + m.frame + w && r.sessionBytes == m.sessionBytes + |w|
            else
              |Flatten(r.log)| < |Flatten(m.log)| + |m.frame| + |w|
    decreases |w|
  {
    hide Feed, Flatten;
    if w != [] {
      var m1 := Feed(m, w[0]);
      FeedAccounts(m, w[0]);
      assert Flatten(m.log) + m.frame + w == Flatten(m.log) + m.frame + [w[0]] + w[1..];
      if m1.terminal.None? {
        FeedAllAccounts(m1, w[1..]);
      } else {
        EndedStays(m1, w[1..]);
      }
    } else {
      assert Flatten(m.log) + m.frame + w == Flatten(m.log) + m.frame;
    }
  }

  // ---- Exactly the grammar ----

  /** Feeding w admits it as one whole frame of this kind. */
  ghost predicate Admits(m: Machine, w: bytes, kind: FrameKind)
    requires Ok(m)
  {
    FeedAll(m, w).log == m.log + [Framed(kind, w)]
  }

  /** The budgets a FETCH of this text and list needs. */
  ghost predicate FetchFits(m: Machine, w: bytes, attrs: seq<Attr>) {
    var tokens := 2 + ListTokens(attrs);
    && m.responses < RESPONSES
    && |w| <= FRAME_BYTES
    && m.sessionBytes + |w| <= SESSION_BYTES
    && tokens <= FETCH_TOKENS
    && m.work + tokens <= WORK_UNITS
  }

  /** The kind a whole FETCH is admitted as. */
  ghost predicate Classified(m: Machine, attrs: seq<Attr>, kind: FrameKind) {
    match kind
    case Control => false
    case FlagsOnly => Has(attrs, FlagsItem) && !Has(attrs, StructureItem)
    case Structure => Has(attrs, StructureItem) && Names(attrs, m.selected) && m.dispatch == Active
  }

  ghost predicate Boundary(m: Machine) {
    Ok(m) && m.terminal.None? && m.mode.AtBoundary?
  }

  lemma NotAdmitted(m: Machine, w: bytes, kind: FrameKind)
    requires Ok(m)
    requires FeedAll(m, w).log == m.log
    ensures !Admits(m, w, kind)
  {
    hide FeedAll;
  }

  /** An admitted frame left the machine running, within its session. */
  lemma AdmittedRuns(m: Machine, w: bytes, kind: FrameKind)
    requires Boundary(m) && Admits(m, w, kind)
    ensures FeedAll(m, w).terminal.None? && m.sessionBytes + |w| <= SESSION_BYTES
    ensures w != [] ==> m.responses < RESPONSES && m.work < WORK_UNITS
  {
    FlattenAdmit(m.(frame := w), kind);
    FeedAllAccounts(m, w);
    if w != [] && (m.responses == RESPONSES || m.work == WORK_UNITS) {
      assert Feed(m, w[0]) == Refuse(m, BoundsExceeded);
      EndedStays(Refuse(m, BoundsExceeded), w[1..]);
    }
  }

  /** The machine's summary of a whole list. */
  function ListScan(attrs: seq<Attr>): Scan
    requires forall a :: a in attrs ==> WfAttr(a)
  {
    Ended(SawAll(Begun(), attrs))
  }

  lemma ListSummary(attrs: seq<Attr>)
    requires WfList(attrs)
    ensures Completes(START, PrintList(attrs)) && Run(START, PrintList(attrs)) == Next(ListScan(attrs))
    ensures var t := ListScan(attrs);
            && t.lex.Finished? && t.tokens == 2 + ListTokens(attrs)
            && (t.uidNamed <==> Has(attrs, UidItem))
            && (t.flags <==> Has(attrs, FlagsItem))
            && (t.structure <==> Has(attrs, StructureItem))
            && (t.uidNamed ==> Names(attrs, t.uid))
  {
    hide Run, WfAttr, SawAll, Has, Names, PrintList;
    PrintedIsRead(attrs);
    Summary(Begun(), attrs);
  }

  lemma NamesHas(attrs: seq<Attr>, uid: nat)
    requires Names(attrs, uid)
    ensures Has(attrs, UidItem)
  {
    var a: Attr :| a in attrs && a.UidAttr? && Number(a.number, false) == Some(uid);
    assert Kind(a) == UidItem;
  }

  lemma AppendInjective<T>(s: seq<T>, x: T, y: T)
    ensures s + [x] == s + [y] <==> x == y
  {
    if x != y {
      assert (s + [x])[|s|] != (s + [y])[|s|];
    }
  }

  /** A completed list is classified by what it says. */
  lemma CompleteFetchIs(m: Machine, w: bytes, scan: Scan, attrs: seq<Attr>, kind: FrameKind)
    requires WfList(attrs) && scan == ListScan(attrs) && kind != Control
    requires Running(m) && m.frame == w
    ensures CompleteFetch(m, scan).log == m.log + [Framed(kind, w)] <==> Classified(m, attrs, kind)
  {
    hide Run, PrintList;
    ListSummary(attrs);
    assert DistinctKinds(attrs) by { ListParts(attrs); }
    AppendInjective(m.log, Framed(Structure, w), Framed(kind, w));
    AppendInjective(m.log, Framed(FlagsOnly, w), Framed(kind, w));
    if Names(attrs, m.selected) {
      NamesHas(attrs, m.selected);
      NamesOne(attrs, m.selected, scan.uid);
    }
  }

  lemma BeginsOrNot(m: Machine, number: bytes, name: bytes, attrs: seq<Attr>, kind: FrameKind)
    requires Boundary(m) && HeadWords(number, name) && WfList(attrs)
    requires var w := Head(number, name) + PrintList(attrs); FetchFits(m, w, attrs) || Admits(m, w, kind)
    ensures Begins(m, |Head(number, name)|)
  {
    hide FeedAll, HeadWords, WfList;
    var w := Head(number, name) + PrintList(attrs);
    if !FetchFits(m, w, attrs) {
      AdmittedRuns(m, w, kind);
    }
  }

  /** The machine at the end of a FETCH of this text and list, unjudged. */
  function FetchEnd(m: Machine, w: bytes, scan: Scan): Machine {
    m.(responses := m.responses + 1, sessionBytes := m.sessionBytes + |w|, frame := w,
       work := m.work + scan.tokens, mode := InFetch(START))
  }

  /** A list that fits makes its first step feasible. */
  lemma FeasibleStart(mh: Machine, list: bytes)
    requires Completes(START, list) && Fits(mh, START, list)
    ensures Feasible(mh, START)
  {
    NeedIsLowerBound(START, list);
  }

  lemma FeedAfterHead(m: Machine, mh: Machine, list: bytes)
    requires Running(mh) && mh.frame != [] && Completes(START, list)
    ensures FeedAll(CheckFetch(mh, START), list) ==
              if Fits(mh, START, list)
              then CompleteFetch(Fed(mh, list, Run(START, list).scan.tokens).(mode := InFetch(START)), Run(START, list).scan)
              else Refuse(mh, BoundsExceeded)
  {
    hide Run, CompleteFetch;
    if Fits(mh, START, list) {
      FeasibleStart(mh, list);
    }
    if Feasible(mh, START) {
      FeedList(mh.(mode := InFetch(START)), START, list);
    } else {
      EndedStays(Refuse(mh, BoundsExceeded), list);
    }
  }

  /** A well formed FETCH is read to its end when it fits, and ends the machine
      without being admitted otherwise. */
  lemma FeedFetch(m: Machine, h: bytes, number: bytes, name: bytes, attrs: seq<Attr>)
    requires HeadWords(number, name) && WfList(attrs) && h == Head(number, name) && Begins(m, |h|)
    ensures var w := h + PrintList(attrs);
            if FetchFits(m, w, attrs)
            then FeedAll(m, w) == CompleteFetch(FetchEnd(m, w, ListScan(attrs)), ListScan(attrs))
            else FeedAll(m, w).log == m.log
  {
    hide FeedAll, HeadWords, WfList, Run, CompleteFetch, PrintList, CheckFetch, ListTokens, Has, Names;
    var list := PrintList(attrs);
    FeedHead(m, number, name);
    FeedConcat(m, h, list);
    var mh := m.(responses := m.responses + 1, sessionBytes := m.sessionBytes + |h|, frame := h, mode := InLine(2, false));
    ListSummary(attrs);
    FeedAfterHead(m, mh, list);
  }

  /** A well formed FETCH is admitted exactly when it fits and its kind allows. */
  lemma FetchOutcome(m: Machine, number: bytes, name: bytes, attrs: seq<Attr>, kind: FrameKind)
    requires Boundary(m) && HeadWords(number, name) && WfList(attrs) && kind != Control
    ensures var w := Head(number, name) + PrintList(attrs);
            Admits(m, w, kind) <==> FetchFits(m, w, attrs) && Classified(m, attrs, kind)
  {
    hide FeedAll, HeadWords, WfList, Run, CompleteFetch, PrintList, Head, ListTokens, Classified;
    var h, list := Head(number, name), PrintList(attrs);
    var w := h + list;
    if FetchFits(m, w, attrs) || Admits(m, w, kind) {
      BeginsOrNot(m, number, name, attrs, kind);
      FeedFetch(m, h, number, name, attrs);
      if FetchFits(m, w, attrs) {
        ListParts(attrs);
        var scan := ListScan(attrs);
        ListSummary(attrs);
        var end := FetchEnd(m, w, scan);
        CompleteFetchIs(end, w, scan, attrs, kind);
        ClassifiedSame(m, end, attrs, kind);
      } else {
        NotAdmitted(m, w, kind);
      }
    }
  }

  lemma ClassifiedSame(a: Machine, b: Machine, attrs: seq<Attr>, kind: FrameKind)
    requires a.selected == b.selected && a.dispatch == b.dispatch
    ensures Classified(a, attrs, kind) == Classified(b, attrs, kind)
  {
  }

  /** Every reachable machine at a boundary admits exactly the FETCH responses
      of the grammar that fit its budgets, of the kind its attributes and the
      dispatch allow: looking ahead never refuses one that would have fit. */
  lemma FetchAdmittedIff(m: Machine, w: bytes, kind: FrameKind)
    requires Safe(m) && m.terminal.None? && m.mode.AtBoundary? && kind != Control
    ensures Admits(m, w, kind) <==>
            exists number, name, attrs ::
              FetchText(w, number, name, attrs) && FetchFits(m, w, attrs) && Classified(m, attrs, kind)
  {
    hide Feed, FeedAll, HeadWords, WfList, PrintList, Head, ListTokens, Has, Names, FetchFits, Classified, Released, Structures, SoFar;
    if Admits(m, w, kind) {
      SafeFeedAll(m, w);
      var f := Framed(kind, w);
      assert f in FeedAll(m, w).log;
      SelectedFeedAll(m, w);
      assert Approved(f, m.selected);
      var number, name, attrs :| FetchText(w, number, name, attrs);
      FetchOutcome(m, number, name, attrs, kind);
    }
    forall number, name, attrs
      | FetchText(w, number, name, attrs) && FetchFits(m, w, attrs) && Classified(m, attrs, kind)
      ensures Admits(m, w, kind)
    {
      FetchOutcome(m, number, name, attrs, kind);
    }
  }

  lemma {:induction false} SafeFeedAll(m: Machine, w: bytes)
    requires Safe(m)
    ensures Safe(FeedAll(m, w))
    decreases |w|
  {
    hide SoFar, Approved, Released, Structures, Feed;
    if w != [] {
      SafeFeed(m, w[0]);
      SafeFeedAll(Feed(m, w[0]), w[1..]);
    }
  }

  lemma {:induction false} SelectedFeedAll(m: Machine, w: bytes)
    requires Ok(m)
    ensures FeedAll(m, w).selected == m.selected
    decreases |w|
  {
    if w != [] {
      hide Feed;
      SelectedStep(m, Input(w[0]));
      SelectedFeedAll(Feed(m, w[0]), w[1..]);
    }
  }

  // ---- Exactly the control lines ----

  /** A text that goes on after its prefix x is cut where x is, and again. */
  lemma CutLonger(rest: bytes, x: bytes)
    requires |x| < |rest| && x <= rest && rest[|x|] == SP && Find(x, SP) < |x|
    ensures Cut(rest, SP).0 == Cut(x, SP).0 && Cut(rest, SP).2 && Cut(Cut(rest, SP).1, SP).2
  {
    var i := Find(x, SP);
    hide Find;
    assert forall j :: 0 <= j < |x| ==> rest[j] == x[j];
    assert Find(rest, SP) == i;
    var arguments := rest[i + 1..];
    assert arguments[|x| - i - 1] == SP;
    assert Find(arguments, SP) < |arguments|;
  }

  /** What is judged has a space between its words. */
  lemma JudgedCut(prefix: bytes)
    requires |prefix| > 3 && JudgePrefix(prefix) != NotFetch
    ensures var x := prefix[2..|prefix| - 1]; Find(x, SP) < |x| && Cut(x, SP).0 != [] && IsDigit(Cut(x, SP).0[0])
  {
    hide Find, Number;
    UpperLetters(Cut(prefix[2..|prefix| - 1], SP).1, FETCH);
  }

  /** A line judged to be a FETCH at its third space is never a control. */
  lemma FetchNotControl(line: bytes, prefix: bytes)
    requires |prefix| > 3 && prefix <= line && prefix[0] == STAR && prefix[|prefix| - 1] == SP
    requires JudgePrefix(prefix) != NotFetch
    ensures !ControlLine(line)
  {
    hide JudgePrefix, StatusText, NamedLine, Number, UpperIs, Find, TaggedLine, Cut;
    if HasPrefix(line, [STAR, SP]) {
      JudgedCut(prefix);
      var x, rest := prefix[2..|prefix| - 1], line[2..];
      assert rest[|x|] == prefix[|prefix| - 1];
      assert x == rest[..|x|];
      CutLonger(rest, x);
    } else {
      StarNotTagged(line);
    }
  }

  lemma StarNotTagged(line: bytes)
    requires line != [] && line[0] == STAR
    ensures !TaggedLine(line)
  {
    hide StatusText, UpperIs;
    assert !AtomChar(STAR);
  }

  /** A line in progress that a control line completes. */
  ghost predicate ControlSoFar(m: Machine, line: bytes) {
    && Ok(m) && m.terminal.None? && m.mode.InLine? && !m.mode.cr
    && m.frame <= line && LineSoFar(m.frame, m.mode.spaces, false)
    && NoBreaks(line) && ControlLine(line)
    && |line| + 2 <= CONTROL_BYTES
    && m.sessionBytes + |line| - |m.frame| + 2 <= SESSION_BYTES
  }

  lemma ControlByte(m: Machine, line: bytes)
    requires ControlSoFar(m, line) && |m.frame| < |line|
    ensures var b := line[|m.frame|];
            var m1 := Feed(m, b);
            && ControlSoFar(m1, line) && m1.frame == m.frame + [b] && m1.sessionBytes == m.sessionBytes + 1
            && m1 == m.(mode := m1.mode, frame := m1.frame, sessionBytes := m1.sessionBytes)
  {
    hide ControlLine, Spaces, JudgePrefix, FetchByte;
    var b := line[|m.frame|];
    var grown := m.frame + [b];
    assert grown <= line;
    LineGrows(m.frame, m.mode.spaces, b);
    if b == SP && grown[0] == STAR && m.mode.spaces == 2 {
      if JudgePrefix(grown) != NotFetch {
        FetchNotControl(line, grown);
      }
    }
  }

  /** The octets of a control line up to its CRLF are all kept. */
  lemma {:induction false} FeedControl(m: Machine, line: bytes)
    requires ControlSoFar(m, line)
    ensures FeedAll(m, line[|m.frame|..] + CRLF) ==
            Admit(m.(frame := line + CRLF, work := m.work + 1,
                     sessionBytes := m.sessionBytes + |line| - |m.frame| + 2), Control)
    decreases |line| - |m.frame|
  {
    hide ControlLine, LineSoFar, Feed;
    if |m.frame| == |line| {
      assert line[|m.frame|..] + CRLF == CRLF;
      ControlEnd(m, line);
    } else {
      var b := line[|m.frame|];
      ControlByte(m, line);
      assert line[|m.frame|..] + CRLF == [b] + (line[|m.frame| + 1..] + CRLF);
      FeedControl(Feed(m, b), line);
    }
  }

  lemma ControlCR(m: Machine, line: bytes)
    requires ControlSoFar(m, line) && m.frame == line
    ensures Feed(m, CR) == m.(frame := line + [CR], sessionBytes := m.sessionBytes + 1, mode := InLine(m.mode.spaces, true))
  {
    hide ControlLine, Spaces, JudgePrefix, FetchByte, ThirdSpace, CompleteLine;
  }

  lemma ControlLF(m: Machine, line: bytes)
    requires Ok(m) && m.terminal.None? && m.mode.InLine? && m.mode.cr && m.frame == line + [CR] && line != []
    requires ControlLine(line) && m.sessionBytes < SESSION_BYTES
    ensures Feed(m, LF) == Admit(m.(frame := line + CRLF, work := m.work + 1, sessionBytes := m.sessionBytes + 1), Control)
  {
    hide ControlLine, Spaces, JudgePrefix, FetchByte, ThirdSpace, CheckLine;
    assert Append(Start(m), LF).frame == line + CRLF;
    assert (line + CRLF)[..|line + CRLF| - 2] == line;
  }

  lemma ControlEnd(m: Machine, line: bytes)
    requires ControlSoFar(m, line) && m.frame == line
    ensures FeedAll(m, CRLF) ==
            Admit(m.(frame := line + CRLF, work := m.work + 1, sessionBytes := m.sessionBytes + 2), Control)
  {
    hide ControlLine, Feed, FeedAll, Admit;
    assert CRLF == [CR] + [LF];
    FeedConcat(m, [CR], [LF]);
    FeedOne(m, CR);
    ControlCR(m, line);
    var m1 := Feed(m, CR);
    FeedOne(m1, LF);
    ControlLF(m1, line);
    AdmitMode(m1.(frame := line + CRLF, work := m1.work + 1, sessionBytes := m1.sessionBytes + 1),
              m.(frame := line + CRLF, work := m.work + 1, sessionBytes := m.sessionBytes + 2), Control);
  }

  lemma AdmitMode(a: Machine, b: Machine, kind: FrameKind)
    requires a == b.(mode := a.mode)
    ensures Admit(a, kind) == Admit(b, kind)
  {
  }

  /** The budgets a control line needs. */
  predicate ControlFits(m: Machine, w: bytes) {
    m.responses < RESPONSES && m.work < WORK_UNITS && m.sessionBytes + |w| <= SESSION_BYTES
  }

  lemma ControlStarts(m: Machine, line: bytes)
    requires Boundary(m) && line != [] && NoBreaks(line) && ControlLine(line) && |line| + 2 <= CONTROL_BYTES
    requires ControlFits(m, line + CRLF)
    ensures var m1 := Feed(m, line[0]);
            && ControlSoFar(m1, line) && |m1.frame| == 1
            && m1 == m.(mode := m1.mode, frame := m1.frame, sessionBytes := m.sessionBytes + 1, responses := m.responses + 1)
  {
    hide ControlLine, Spaces, JudgePrefix, FetchByte;
    LineGrows([], 0, line[0]);
    assert [] + [line[0]] == [line[0]];
  }

  /** No control line is empty. */
  lemma ControlNotEmpty(line: bytes)
    requires ControlLine(line)
    ensures line != []
  {
  }

  /** What is admitted as a control line is one, and fits. */
  lemma ControlNeeds(m: Machine, w: bytes)
    requires Safe(m) && m.terminal.None? && m.mode.AtBoundary? && Admits(m, w, Control)
    ensures ControlFrame(w) && ControlFits(m, w)
  {
    hide Feed, FeedAll, ControlLine, NoBreaks, Released, Structures, SoFar;
    SafeFeedAll(m, w);
    assert Framed(Control, w) in FeedAll(m, w).log;
    SelectedFeedAll(m, w);
    AdmittedRuns(m, w, Control);
  }

  lemma LineOf(w: bytes)
    requires ControlFrame(w)
    ensures |w| > 2 && w == [w[0]] + (w[..|w| - 2][1..] + CRLF) && w == w[..|w| - 2] + CRLF && w[..|w| - 2][0] == w[0]
    ensures ControlLine(w[..|w| - 2]) && NoBreaks(w[..|w| - 2]) && |w| <= CONTROL_BYTES
  {
    hide ControlLine, ControlGrammar.Prints;
    ControlGrammar.ControlLineIff(w[..|w| - 2]);
    ControlNotEmpty(w[..|w| - 2]);
  }

  /** A control line that fits is admitted. */
  lemma ControlSuffices(m: Machine, w: bytes)
    requires Boundary(m) && ControlFrame(w) && ControlFits(m, w)
    ensures Admits(m, w, Control)
  {
    hide Feed, FeedAll, ControlLine, ControlFrame, NoBreaks, ControlSoFar;
    LineOf(w);
    var line := w[..|w| - 2];
    ControlStarts(m, line);
    var m1 := Feed(m, line[0]);
    ControlFed(m1, line);
    FeedConcat(m, [line[0]], line[1..] + CRLF);
    FeedOne(m, line[0]);
  }

  lemma ControlFed(m: Machine, line: bytes)
    requires ControlSoFar(m, line) && |m.frame| == 1
    ensures Ok(m) && FeedAll(m, line[1..] + CRLF).log == m.log + [Framed(Control, line + CRLF)]
  {
    hide Feed, FeedAll, ControlLine, NoBreaks;
    FeedControl(m, line);
  }

  /** Every reachable machine at a boundary admits exactly the control responses
      of the grammar that fit its budgets. */
  lemma ControlAdmittedIff(m: Machine, w: bytes)
    requires Safe(m) && m.terminal.None? && m.mode.AtBoundary?
    ensures Admits(m, w, Control) <==> ControlFrame(w) && ControlFits(m, w)
  {
    hide Admits, ControlFrame, ControlFits, Ok, Approved, Released;
    if Admits(m, w, Control) {
      ControlNeeds(m, w);
    }
    if ControlFrame(w) && ControlFits(m, w) {
      ControlSuffices(m, w);
    }
  }
}
