/** The observer of one running SEARCH: it frames the raw stream into response
    lines, joining an ESEARCH around its literals, and judges each line
    (bridge/imapclient.go:1343-1355, 1426-1502, 1565-1594). */
module SearchObserver {
  import opened Octets
  import opened SearchWire
  import opened SearchSets
  import opened SearchESearch

  // ---- Framing ----

  /** The unread text, the literal octets still to skip, whether the next line
      resumes a response, and the ESEARCH text it resumes. */
  datatype Framer = Framer(buffer: bytes, literal: nat, continues: bool, pending: bytes)

  const FRESH := Framer([], 0, false, [])

  /** What one line says: whether it is malformed, its class, the text after
      its SEARCH or ESEARCH name, and whether that text is the whole line. */
  datatype Line = Line(malformed: bool, kind: LineKind, text: bytes, whole: bool)

  function Append(f: Framer, input: bytes): Framer {
    f.(buffer := f.buffer + input)
  }

  /** Drops the part of the current literal that has arrived. */
  function Skip(f: Framer): Framer {
    if f.literal == 0 then f
    else if |f.buffer| <= f.literal then f.(literal := f.literal - |f.buffer|, buffer := [])
    else f.(buffer := f.buffer[f.literal..], literal := 0)
  }

  function LineKindOf(f: Framer, line: bytes): (LineKind, bytes) {
    if !f.continues || f.pending != [] then Classify(line) else (DataLine, [])
  }

  /** The text of the first line with the pending text before it. */
  function FirstLine(f: Framer): bytes {
    f.pending + TrimSuffix(f.buffer[..Find(f.buffer, LF)], CR)
  }

  /** Takes one complete line off the buffer. */
  function TakeLine(f: Framer): (Framer, Line)
    requires LF in f.buffer
  {
    var end := Find(f.buffer, LF);
    var line := FirstLine(f);
    var (kind, text) := LineKindOf(f, line);
    var trailing := if kind == TextLine then NoLiteral else TrailingLiteral(line);
    var joins := kind == ESearchKind && trailing.Literal?;
    (Framer(f.buffer[end + 1..], if trailing.Literal? then trailing.size else 0, trailing.Literal?,
            if joins then line[..trailing.opening] + [QUOTE, QUOTE] else []),
     Line(CR in line || trailing.Unterminated? || kind == Unclassified, kind, text, !joins))
  }

  /** Takes every complete line off the buffer. */
  function Drain(f: Framer): (r: (Framer, seq<Line>))
    decreases |f.buffer|
  {
    var g := Skip(f);
    if LF !in g.buffer then (g, [])
    else
      var (next, line) := TakeLine(g);
      var (last, lines) := Drain(next);
      (last, [line] + lines)
  }

  lemma SkipAppend(f: Framer, more: bytes)
    ensures Skip(Append(Skip(f), more)) == Skip(Append(f, more))
    ensures LF in Skip(f).buffer ==> Skip(Append(f, more)) == Append(Skip(f), more)
  {
    if f.literal > 0 {
      if |f.buffer| <= f.literal {
        SkipPart(f, more);
      } else {
        DropAppend(f.buffer, more, f.literal);
      }
    }
  }

  lemma DropAppend(s: bytes, more: bytes, k: nat)
    requires k <= |s|
    ensures (s + more)[k..] == s[k..] + more
  {
  }

  lemma SkipPart(f: Framer, more: bytes)
    requires 0 < f.literal && |f.buffer| <= f.literal
    ensures Skip(Append(Skip(f), more)) == Skip(Append(f, more))
  {
    assert Append(Skip(f), more) == Framer(more, f.literal - |f.buffer|, f.continues, f.pending) by {
      assert [] + more == more;
    }
    if f.literal < |f.buffer| + |more| {
      DropSuffix(f.buffer, more, f.literal);
    }
  }

  lemma DropSuffix(s: bytes, more: bytes, k: nat)
    requires |s| <= k <= |s| + |more|
    ensures (s + more)[k..] == more[k - |s|..]
  {
  }

  lemma {:induction false} FindAppend(s: bytes, more: bytes, b: byte)
    requires b in s
    ensures Find(s + more, b) == Find(s, b) < |s|
  {
    if s[0] != b {
      assert (s + more)[1..] == s[1..] + more;
      FindAppend(s[1..], more, b);
    }
  }

  lemma TakeAppend(f: Framer, more: bytes)
    requires LF in f.buffer
    ensures LF in Append(f, more).buffer
    ensures TakeLine(Append(f, more)) == (Append(TakeLine(f).0, more), TakeLine(f).1)
  {
    hide TrailingLiteral, LineKindOf, FirstLine, Find;
    FindAppend(f.buffer, more, LF);
    FirstLineAppend(f, more);
    LineKindAppend(f, more, FirstLine(f));
    DropAppend(f.buffer, more, Find(f.buffer, LF) + 1);
  }

  lemma LineKindAppend(f: Framer, more: bytes, line: bytes)
    ensures LineKindOf(Append(f, more), line) == LineKindOf(f, line)
  {
    hide Classify;
  }

  lemma FirstLineAppend(f: Framer, more: bytes)
    requires LF in f.buffer
    ensures FirstLine(Append(f, more)) == FirstLine(f)
  {
    hide TrimSuffix;
    FindAppend(f.buffer, more, LF);
    var end := Find(f.buffer, LF);
    assert (f.buffer + more)[..end] == f.buffer[..end];
  }

  /** Draining in two instalments is draining once. */
  lemma {:induction false} DrainAppend(f: Framer, more: bytes)
    ensures var (g, first) := Drain(f);
            var (h, second) := Drain(Append(g, more));
            Drain(Append(f, more)) == (h, first + second)
    decreases |f.buffer|
  {
    hide TakeLine, Skip;
    var g := Skip(f);
    SkipAppend(f, more);
    SkipShrinks(f);
    if LF in g.buffer {
      TakeAppend(g, more);
      TakeShrinks(g);
      var (next, line) := TakeLine(g);
      DrainAppend(next, more);
      var rest := Drain(next);
      var second := Drain(Append(rest.0, more)).1;
      assert [line] + rest.1 + second == [line] + (rest.1 + second);
    } else {
      assert Drain(f) == (g, []);
      var last := Drain(Append(g, more));
      assert Drain(Append(f, more)) == last by {
        assert Skip(Append(g, more)) == Skip(Append(f, more));
      }
      assert [] + last.1 == last.1;
    }
  }

  lemma SkipShrinks(f: Framer)
    ensures |Skip(f).buffer| <= |f.buffer|
  {
  }

  lemma TakeShrinks(f: Framer)
    requires LF in f.buffer
    ensures |TakeLine(f).0.buffer| < |f.buffer|
  {
    hide TrailingLiteral, LineKindOf;
  }

  // ---- Judging ----

  /** What is reported of the command so far. */
  datatype Tally = Tally(
    window: Window,
    searchSeen: bool,
    eSearchSeen: bool,
    uids: set<nat>,
    duplicate: bool,
    incomplete: bool,
    outOfWindow: bool)

  const EMPTY := Tally(Window(0, 0), false, false, {}, false, false, false)

  predicate Clear(t: Tally) {
    !t.duplicate && !t.incomplete && !t.outOfWindow
  }

  /** Records one raw range: zero always refuses, the window only when set. */
  function ObserveRange(t: Tally, i: Interval): Tally {
    if i.start == 0 || i.stop == 0 then t.(incomplete := true)
    else if Width(t.window) == 0 then t
    else t.(outOfWindow := t.outOfWindow || i.start < t.window.start || i.stop > t.window.end)
  }

  function ObserveUid(t: Tally, uid: nat): Tally {
    var u := ObserveRange(t, Interval(uid, uid));
    u.(duplicate := u.duplicate || uid in u.uids, uids := u.uids + {uid})
  }

  /** The fields of one SEARCH line, up to the first that is no number. */
  function ObserveFields(t: Tally, fields: seq<bytes>): Tally
    decreases |fields|
  {
    if fields == [] then t
    else
      var uid := ParseUint(fields[0], MAX_UINT32);
      if uid.None? then t.(incomplete := true)
      else ObserveFields(ObserveUid(t, uid.value), fields[1..])
  }

  function ObserveSearch(t: Tally, text: bytes): Tally {
    ObserveFields(t.(incomplete := t.incomplete || !GroupOk(text)), Fields(BeforeGroup(text), []))
  }

  function ObserveRanges(t: Tally, ranges: seq<Interval>): Tally
    decreases |ranges|
  {
    if ranges == [] then t else ObserveRanges(ObserveRange(t, ranges[0]), ranges[1..])
  }

  ghost function ObserveESearch(t: Tally, text: bytes): Tally {
    var report := Walk(text);
    var u := ObserveRanges(t, report.observed);
    u.(duplicate := u.duplicate || report.overlaps, incomplete := u.incomplete || !report.complete)
  }

  ghost function Judge(t: Tally, line: Line): Tally {
    var u := t.(incomplete := t.incomplete || line.malformed);
    if line.kind == SearchKind then ObserveSearch(u.(searchSeen := true), line.text)
    else if line.kind == ESearchKind then
      var v := u.(eSearchSeen := true);
      if line.whole then ObserveESearch(v, line.text) else v
    else u
  }

  ghost function JudgeAll(t: Tally, lines: seq<Line>): Tally
    decreases |lines|
  {
    if lines == [] then t else JudgeAll(Judge(t, lines[0]), lines[1..])
  }

  lemma {:induction false} JudgeConcat(t: Tally, a: seq<Line>, b: seq<Line>)
    ensures JudgeAll(t, a + b) == JudgeAll(JudgeAll(t, a), b)
    decreases |a|
  {
    hide Judge;
    if a == [] {
      assert a + b == b;
    } else {
      JudgeConcat(Judge(t, a[0]), a[1..], b);
      assert (a + b)[1..] == a[1..] + b;
    }
  }

  // ---- The observer ----

  datatype Observer = Observer(framer: Framer, tally: Tally)

  const START := Observer(FRESH, EMPTY)

  /** Reads and judges every complete line of the buffer. */
  ghost function Settle(o: Observer): Observer {
    var (framer, lines) := Drain(o.framer);
    Observer(framer, JudgeAll(o.tally, lines))
  }

  /** Observes one chunk of the stream. */
  ghost function Observe(o: Observer, input: bytes): Observer {
    Settle(Observer(Append(o.framer, input), o.tally))
  }

  /** Reading one line leaves the rest of the reading to do. */
  lemma SettleLine(o: Observer)
    requires LF in Skip(o.framer).buffer
    ensures var (next, line) := TakeLine(Skip(o.framer));
            |next.buffer| < |o.framer.buffer| && Settle(o) == Settle(Observer(next, Judge(o.tally, line)))
  {
    hide Skip, TakeLine, Judge;
    SkipShrinks(o.framer);
    TakeShrinks(Skip(o.framer));
    var (next, line) := TakeLine(Skip(o.framer));
    var rest := Drain(next).1;
    assert ([line] + rest)[1..] == rest;
  }

  ghost function ObserveAll(o: Observer, chunks: seq<bytes>): Observer
    decreases |chunks|
  {
    if chunks == [] then o else ObserveAll(Observe(o, chunks[0]), chunks[1..])
  }

  function Flatten(chunks: seq<bytes>): bytes {
    if chunks == [] then [] else chunks[0] + Flatten(chunks[1..])
  }

  /** Observing a then b is observing a + b, wherever the stream is cut. */
  lemma ChunkIndependence(o: Observer, a: bytes, b: bytes)
    ensures Observe(Observe(o, a), b) == Observe(o, a + b)
  {
    hide Drain, JudgeAll;
    var f := Append(o.framer, a);
    var (g, first) := Drain(f);
    var (h, second) := Drain(Append(g, b));
    DrainAppend(f, b);
    JudgeConcat(o.tally, first, second);
    assert o.framer.buffer + a + b == o.framer.buffer + (a + b);
    assert Append(f, b) == Append(o.framer, a + b);
  }

  /** A state that has read all it can: the state every observation leaves. */
  ghost predicate Drained(f: Framer) {
    LF !in f.buffer && (f.literal > 0 ==> f.buffer == [])
  }

  lemma {:induction false} DrainDrains(f: Framer)
    ensures Drained(Drain(f).0)
    decreases |f.buffer|
  {
    hide TakeLine;
    var g := Skip(f);
    if LF in g.buffer {
      TakeShrinks(g);
      DrainDrains(TakeLine(g).0);
    }
  }

  lemma DrainedStays(o: Observer)
    requires Drained(o.framer)
    ensures Observe(o, []) == o
  {
    assert Append(o.framer, []) == o.framer by {
      assert o.framer.buffer + [] == o.framer.buffer;
    }
    assert Skip(o.framer) == o.framer;
  }

  /** However the stream is chunked, the observer ends in the state one read of
      the whole stream leaves. */
  lemma {:induction false} ChunkingIsInvisible(o: Observer, chunks: seq<bytes>)
    requires Drained(o.framer)
    ensures ObserveAll(o, chunks) == Observe(o, Flatten(chunks))
    decreases |chunks|
  {
    hide Observe;
    if chunks == [] {
      DrainedStays(o);
    } else {
      ObserveDrains(o, chunks[0]);
      ChunkingIsInvisible(Observe(o, chunks[0]), chunks[1..]);
      ChunkIndependence(o, chunks[0], Flatten(chunks[1..]));
    }
  }

  lemma ObserveDrains(o: Observer, input: bytes)
    ensures Drained(Observe(o, input).framer)
  {
    hide Drain, JudgeAll;
    DrainDrains(Append(o.framer, input));
  }
}
