/** Why the quarantine refuses: a response that does not fit ends it for its
    bounds, and one that fits but is none of the admitted ones ends it as a
    protocol error (bridge/structure_quarantine.go:330-398, 640-710). */
module QuarantineRefusals {
  import opened Octets
  import opened Wrappers
  import opened QuarantineLexis
  import ControlGrammar
  import opened FetchScan
  import opened FetchFrame
  import opened QuarantineMachine
  import opened QuarantineRuns
  import opened QuarantineSafety
  import opened QuarantineExact

  // ---- Flat lines ----

  /** At its third space no beginning of the line is taken for a FETCH. */
  ghost predicate Undisturbed(line: bytes) {
    forall k :: 3 < k <= |line| && line[0] == STAR && line[k - 1] == SP && Spaces(line[..k]) == 3 ==> JudgePrefix(line[..k]) == NotFetch
  }

  /** The machine within the line, with its frame a beginning of it. */
  ghost predicate Within(m: Machine, line: bytes) {
    && Ok(m) && m.terminal.None? && m.mode.InLine? && !m.mode.cr
    && m.frame <= line && LineSoFar(m.frame, m.mode.spaces, false) && NoBreaks(line)
  }

  /** There is room for the rest of the line and its end. */
  predicate RestFits(m: Machine, line: bytes) {
    |line| + 2 <= CONTROL_BYTES && m.sessionBytes + |line| - |m.frame| + 2 <= SESSION_BYTES
  }

  lemma SpacesGrow(frame: bytes, b: byte)
    ensures Spaces(frame + [b]) == Spaces(frame) + if b == SP then 1 else 0
  {
    assert (frame + [b])[..|frame + [b]| - 1] == frame;
  }

  /** One octet of the line is kept when there is room for the end of the line
      behind it, and ends the machine for its bounds otherwise. */
  lemma WithinStep(m: Machine, line: bytes)
    requires Within(m, line) && Undisturbed(line) && |m.frame| < |line|
    ensures var b := line[|m.frame|];
            var r := Feed(m, b);
            if |m.frame| + 3 <= CONTROL_BYTES && m.sessionBytes + 3 <= SESSION_BYTES then
              && Within(r, line) && r.frame == m.frame + [b] && r.sessionBytes == m.sessionBytes + 1
              && r == m.(mode := r.mode, frame := r.frame, sessionBytes := r.sessionBytes)
            else r == Refuse(m, BoundsExceeded)
  {
    hide ControlLine, Spaces, JudgePrefix, FetchByte;
    var b := line[|m.frame|];
    var grown := m.frame + [b];
    assert grown == line[..|grown|];
    LineGrows(m.frame, m.mode.spaces, b);
    SpacesGrow(m.frame, b);
    if b == SP && grown[0] == STAR && m.mode.spaces == 2 {
      assert JudgePrefix(line[..|grown|]) == NotFetch;
    }
  }

  /** The whole of the line but its end. */
  lemma {:induction false} WithinRun(m: Machine, line: bytes)
    requires Within(m, line) && Undisturbed(line)
    ensures var r := FeedAll(m, line[|m.frame|..]);
            if line == m.frame || RestFits(m, line) then
              && Within(r, line) && r.frame == line && r.sessionBytes == m.sessionBytes + |line| - |m.frame|
              && r == m.(mode := r.mode, frame := line, sessionBytes := r.sessionBytes)
            else r.terminal == Some(BoundsExceeded) && r.log == m.log
    decreases |line| - |m.frame|
  {
    hide Feed, Undisturbed, LineSoFar;
    var rest := line[|m.frame|..];
    if rest != [] {
      WithinStep(m, line);
      var m1 := Feed(m, rest[0]);
      assert rest[1..] == line[|m.frame| + 1..];
      if m1.terminal.None? {
        WithinRun(m1, line);
      } else {
        EndedStays(m1, rest[1..]);
      }
    } else {
      assert m.frame == line;
    }
  }

  /** There is room for a line of this length at a boundary. */
  predicate LineFitsAt(m: Machine, length: nat) {
    && m.responses < RESPONSES && m.work < WORK_UNITS
    && length + 2 <= CONTROL_BYTES && m.sessionBytes + length + 2 <= SESSION_BYTES
  }

  lemma FirstOfLine(m: Machine, line: bytes)
    requires Boundary(m) && line != [] && NoBreaks(line)
    ensures var r := Feed(m, line[0]);
            if LineFitsAt(m, 1) then
              && Within(r, line) && r.frame == [line[0]] && r.sessionBytes == m.sessionBytes + 1
              && r == m.(mode := r.mode, frame := r.frame, sessionBytes := r.sessionBytes, responses := m.responses + 1)
            else r == Refuse(m, BoundsExceeded) || r == Refuse(m.(responses := m.responses + 1), BoundsExceeded)
  {
    hide ControlLine, Spaces, JudgePrefix, FetchByte;
    LineGrows([], 0, line[0]);
    assert [] + [line[0]] == [line[0]];
  }

  /** A line without its end is kept whole when it fits, and ends the machine for
      its bounds otherwise. */
  lemma LineKept(m: Machine, line: bytes)
    requires Boundary(m) && line != [] && NoBreaks(line) && Undisturbed(line)
    ensures var r := FeedAll(m, line);
            if LineFitsAt(m, |line|) then
              && Within(r, line) && r.frame == line
              && r == m.(mode := r.mode, frame := line, sessionBytes := m.sessionBytes + |line|, responses := m.responses + 1)
            else r.terminal == Some(BoundsExceeded) && r.log == m.log
  {
    hide Feed, Undisturbed, LineSoFar;
    FirstOfLine(m, line);
    var m1 := Feed(m, line[0]);
    if m1.terminal.None? {
      WithinRun(m1, line);
    } else {
      EndedStays(m1, line[1..]);
    }
  }

  lemma EndsLine(m: Machine, line: bytes)
    requires Within(m, line) && m.frame == line && |line| + 2 <= CONTROL_BYTES && m.sessionBytes + 2 <= SESSION_BYTES
    requires !ControlLine(line)
    ensures FeedAll(m, CRLF).terminal == Some(Protocol) && FeedAll(m, CRLF).log == m.log
  {
    hide Feed, FeedAll, ControlLine, Spaces;
    assert CRLF == [CR] + [LF];
    FeedConcat(m, [CR], [LF]);
    FeedOne(m, CR);
    KeepsCR(m, line);
    FeedOne(Feed(m, CR), LF);
    RefusesLF(Feed(m, CR), line);
  }

  lemma KeepsCR(m: Machine, line: bytes)
    requires Within(m, line) && m.frame == line && |line| + 2 <= CONTROL_BYTES && m.sessionBytes + 2 <= SESSION_BYTES
    ensures var r := Feed(m, CR);
            Ok(r) && r == m.(frame := line + [CR], sessionBytes := m.sessionBytes + 1, mode := InLine(m.mode.spaces, true))
  {
    hide ControlLine, Spaces, JudgePrefix, FetchByte, ThirdSpace, CompleteLine;
  }

  lemma RefusesLF(m: Machine, line: bytes)
    requires Ok(m) && m.terminal.None? && m.mode.InLine? && m.mode.cr && m.frame == line + [CR] && line != []
    requires !ControlLine(line) && m.sessionBytes < SESSION_BYTES
    ensures Feed(m, LF).terminal == Some(Protocol) && Feed(m, LF).log == m.log
  {
    hide ControlLine, Spaces, JudgePrefix, FetchByte, ThirdSpace, CheckLine;
    assert Append(Start(m), LF).frame == line + CRLF;
    assert (line + CRLF)[..|line + CRLF| - 2] == line;
  }

  /** How a line that is no FETCH ends: for its bounds when it does not fit,
      admitted when it is a control response, and as a protocol error
      otherwise. */
  lemma LineOutcome(m: Machine, line: bytes)
    requires Safe(m) && m.terminal.None? && m.mode.AtBoundary? && line != [] && NoBreaks(line) && !BeginsFetch(line)
    ensures var r := FeedAll(m, line + CRLF);
            && r.terminal == (if !LineFitsAt(m, |line|) then Some(BoundsExceeded)
                              else if ControlGrammar.Prints(line) then None else Some(Protocol))
            && r.log == if r.terminal.None? then m.log + [Framed(Control, line + CRLF)] else m.log
  {
    hide Feed, FeedAll, Undisturbed, Within, ControlLine, ControlGrammar.Prints, SoFar, Released, Structures, Approved, BeginsFetch;
    OthersUndisturbed(line);
    FeedConcat(m, line, CRLF);
    LineKept(m, line);
    var r := FeedAll(m, line);
    if !LineFitsAt(m, |line|) {
      EndedStays(r, CRLF);
    } else if ControlGrammar.Prints(line) {
      PrintedFits(m, line);
    } else {
      ControlGrammar.ControlLineIff(line);
      EndsLine(r, line);
    }
  }

  lemma PrintedFits(m: Machine, line: bytes)
    requires Safe(m) && m.terminal.None? && m.mode.AtBoundary? && NoBreaks(line)
    requires LineFitsAt(m, |line|) && ControlGrammar.Prints(line)
    ensures FeedAll(m, line + CRLF).terminal.None? && Admits(m, line + CRLF, Control)
  {
    hide Feed, FeedAll, ControlGrammar.Prints, SoFar, Released, Structures, Approved;
    var w := line + CRLF;
    assert w[..|w| - 2] == line;
    ControlSuffices(m, w);
    AdmittedRuns(m, w, Control);
  }

  /** What begins "* n FETCH " with a number word, in any case. */
  ghost predicate BeginsFetch(line: bytes) {
    exists number, name, rest :: FetchWords(number, name) && line == Head(number, name) + rest
  }

  predicate FetchWords(number: bytes, name: bytes) {
    number != [] && IsDigit(number[0]) && SP !in number && UpperIs(name, FETCH)
  }

  lemma DisturbedBegins(line: bytes, k: nat)
    requires 3 < k <= |line| && line[0] == STAR && line[k - 1] == SP && Spaces(line[..k]) == 3
    requires JudgePrefix(line[..k]) != NotFetch
    ensures BeginsFetch(line)
  {
    hide JudgePrefix, Spaces, FetchWords;
    var number, name := JudgedFetch(line[..k]);
    assert line == Head(number, name) + line[k..];
  }

  /** A line that does not begin so goes undisturbed. */
  lemma OthersUndisturbed(line: bytes)
    requires !BeginsFetch(line)
    ensures Undisturbed(line)
  {
    hide JudgePrefix, Spaces, FetchWords;
    forall k | 3 < k <= |line| && line[0] == STAR && line[k - 1] == SP && Spaces(line[..k]) == 3
      ensures JudgePrefix(line[..k]) == NotFetch
    {
      if JudgePrefix(line[..k]) != NotFetch {
        DisturbedBegins(line, k);
      }
    }
  }

  lemma JudgedFetch(frame: bytes) returns (number: bytes, name: bytes)
    requires |frame| > 3 && frame[0] == STAR && frame[|frame| - 1] == SP && Spaces(frame) == 3
    requires JudgePrefix(frame) != NotFetch
    ensures FetchWords(number, name) && frame == Head(number, name)
  {
    hide UpperIs, Number, Find, Spaces;
    var x := frame[2..|frame| - 1];
    number, name := Cut(x, SP).0, Cut(x, SP).1;
    UpperLetters(name, FETCH);
    assert x == x[..Find(x, SP)] + [SP] + x[Find(x, SP) + 1..];
    FrameParts(frame, number, name);
    TwoWordSpaces([frame[0], frame[1]], number, name);
    TwoOctetSpaces(frame[0], frame[1]);
  }

  // ---- FETCH responses ----

  /** The head of a FETCH without its last space. */
  function HeadLine(number: bytes, name: bytes): bytes {
    [STAR, SP] + number + [SP] + name
  }

  lemma HeadLineIs(number: bytes, name: bytes)
    requires HeadWords(number, name)
    ensures var line := HeadLine(number, name);
            && line != [] && NoBreaks(line) && Undisturbed(line) && Head(number, name) == line + [SP]
            && Spaces(line) == 2 && line[0] == STAR && |line| + 3 <= CONTROL_BYTES
  {
    hide HeadWords, UpperIs, JudgePrefix, Spaces;
    HeadIsPlain(number, name);
    var line := HeadLine(number, name);
    TwoWordSpaces([STAR, SP], number, name);
    TwoOctetSpaces(STAR, SP);
    SpacesGrow(line, SP);
    forall k | 3 < k <= |line| ensures Spaces(line[..k]) <= 2 {
      assert line == line[..k] + line[k..];
      SpacesConcat(line[..k], line[k..]);
    }
  }

  /** The last space of a head that fits no list ends the machine. */
  lemma HeadTooLong(m: Machine, line: bytes, number: bytes, name: bytes)
    requires Within(m, line) && m.frame == line && line == HeadLine(number, name) && HeadWords(number, name)
    requires m.sessionBytes + 3 > SESSION_BYTES
    ensures Feed(m, SP).terminal == Some(BoundsExceeded) && Feed(m, SP).log == m.log
  {
    hide HeadWords, JudgePrefix, ControlLine, Spaces, FetchByte;
    HeadLineIs(number, name);
    HeadJudged(number, name);
    assert m.mode.spaces == 2;
    assert m.frame + [SP] == Head(number, name);
    StartNeeds();
    hide Need;
  }

  lemma StartNeeds()
    ensures Need(START) >= 2
  {
  }

  /** A head that does not fit ends the machine for its bounds. */
  lemma HeadRefused(m: Machine, number: bytes, name: bytes)
    requires Boundary(m) && HeadWords(number, name) && !Begins(m, |Head(number, name)|)
    ensures var r := FeedAll(m, Head(number, name)); r.terminal == Some(BoundsExceeded) && r.log == m.log
  {
    hide HeadWords, Feed, FeedAll, Undisturbed, Within, HeadLine, Head;
    var line := HeadLine(number, name);
    HeadLineIs(number, name);
    LineKept(m, line);
    FeedConcat(m, line, [SP]);
    var r := FeedAll(m, line);
    if LineFitsAt(m, |line|) {
      FeedOne(r, SP);
      HeadTooLong(r, line, number, name);
    } else {
      EndedStays(r, [SP]);
    }
  }

  /** A list that goes on from a head ends for its bounds unless it fits. */
  lemma ListRefused(m: Machine, number: bytes, name: bytes, attrs: seq<Attr>)
    requires HeadWords(number, name) && WfList(attrs) && Begins(m, |Head(number, name)|)
    requires !FetchFits(m, Head(number, name) + PrintList(attrs), attrs)
    ensures var r := FeedAll(m, Head(number, name) + PrintList(attrs)); r.terminal == Some(BoundsExceeded) && r.log == m.log
  {
    hide FeedAll, HeadWords, WfList, Run, CompleteFetch, PrintList, CheckFetch, ListTokens, Has, Names;
    var h, list := Head(number, name), PrintList(attrs);
    FeedHead(m, number, name);
    FeedConcat(m, h, list);
    ListSummary(attrs);
    FeedAfterHead(m, m.(responses := m.responses + 1, sessionBytes := m.sessionBytes + |h|, frame := h, mode := InLine(2, false)), list);
  }

  lemma CompletedCode(m: Machine, scan: Scan, attrs: seq<Attr>)
    requires WfList(attrs) && scan == ListScan(attrs) && Running(m)
    ensures CompleteFetch(m, scan).terminal
            == if Classified(m, attrs, FlagsOnly) || Classified(m, attrs, Structure) then None else Some(Protocol)
    ensures CompleteFetch(m, scan).terminal.Some? ==> CompleteFetch(m, scan).log == m.log
  {
    hide Run, PrintList;
    ListSummary(attrs);
    assert DistinctKinds(attrs) by { ListParts(attrs); }
    if Names(attrs, m.selected) {
      NamesHas(attrs, m.selected);
      NamesOne(attrs, m.selected, scan.uid);
    }
  }

  /** How a well formed FETCH ends: for its bounds when it does not fit, admitted
      when its attributes and the dispatch allow a kind for it, and as a
      protocol error otherwise. */
  lemma FetchRefusal(m: Machine, number: bytes, name: bytes, attrs: seq<Attr>)
    requires Boundary(m) && HeadWords(number, name) && WfList(attrs)
    ensures var w := Head(number, name) + PrintList(attrs);
            var r := FeedAll(m, w);
            && r.terminal == (if !FetchFits(m, w, attrs) then Some(BoundsExceeded)
                              else if Classified(m, attrs, FlagsOnly) || Classified(m, attrs, Structure) then None
                              else Some(Protocol))
            && (r.terminal.Some? ==> r.log == m.log)
  {
    hide FeedAll, HeadWords, WfList, Run, CompleteFetch, PrintList, Head, ListTokens, Classified;
    var h, list := Head(number, name), PrintList(attrs);
    var w := h + list;
    if !Begins(m, |h|) {
      HeadRefused(m, number, name);
      FeedConcat(m, h, list);
      EndedStays(FeedAll(m, h), list);
      if FetchFits(m, w, attrs) {
        BeginsOrNot(m, number, name, attrs, Structure);
      }
    } else if FetchFits(m, w, attrs) {
      FeedFetch(m, h, number, name, attrs);
      ListParts(attrs);
      var end := FetchEnd(m, w, ListScan(attrs));
      FetchEndRuns(m, w, attrs);
      CompletedCode(end, ListScan(attrs), attrs);
      ClassifiedSame(m, end, attrs, FlagsOnly);
      ClassifiedSame(m, end, attrs, Structure);
    } else {
      ListRefused(m, number, name, attrs);
    }
  }

  lemma FetchEndRuns(m: Machine, w: bytes, attrs: seq<Attr>)
    requires Boundary(m) && WfList(attrs) && FetchFits(m, w, attrs)
    ensures Running(FetchEnd(m, w, ListScan(attrs)))
  {
    hide Run, PrintList;
    ListSummary(attrs);
  }
}
