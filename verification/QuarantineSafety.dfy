/** Release safety of the quarantine over every run. */
module QuarantineSafety {
  import opened Octets
  import opened Wrappers
  import opened QuarantineLexis
  import ControlGrammar
  import opened FetchScan
  import opened FetchGrammar
  import opened FetchFrame
  import opened QuarantineMachine
  import opened QuarantineRuns

  function ListTokens(attrs: seq<Attr>): nat {
    if attrs == [] then 0 else AttrTokens(attrs[0]) + ListTokens(attrs[1..])
  }

  lemma HasCons(a: Attr, rest: seq<Attr>, item: Item)
    ensures Has([a] + rest, item) <==> Kind(a) == item || Has(rest, item)
  {
    hide Kind;
    if Kind(a) == item {
      assert a in [a] + rest;
    }
    forall b | b in rest && Kind(b) == item ensures Has([a] + rest, item) {
      assert b in [a] + rest;
    }
  }

  /** The machine's summary of a list is what the list says. */
  lemma {:induction false} Summary(s: Scan, attrs: seq<Attr>)
    requires forall a :: a in attrs ==> WfAttr(a)
    requires DistinctKinds(attrs)
    ensures var t := SawAll(s, attrs);
            && (t.uidNamed <==> s.uidNamed || Has(attrs, UidItem))
            && (t.flags <==> s.flags || Has(attrs, FlagsItem))
            && (t.structure <==> s.structure || Has(attrs, StructureItem))
            && t.tokens == s.tokens + ListTokens(attrs)
            && (if Has(attrs, UidItem) then Names(attrs, t.uid) else t.uid == s.uid)
    decreases |attrs|
  {
    hide WfAttr, Number;
    if attrs != [] {
      var a, rest := attrs[0], attrs[1..];
      assert attrs == [a] + rest;
      HasCons(a, rest, UidItem);
      HasCons(a, rest, FlagsItem);
      HasCons(a, rest, StructureItem);
      var s1 := Saw(s, a);
      assert SawAll(s, attrs) == SawAll(s1, rest);
      Summary(s1, rest);
      hide SawAll;
      SummaryUid(s, attrs);
    }
  }

  lemma SummaryUid(s: Scan, attrs: seq<Attr>)
    requires attrs != [] && (forall a :: a in attrs ==> WfAttr(a)) && DistinctKinds(attrs)
    requires var rest := attrs[1..]; var s1 := Saw(s, attrs[0]); var t := SawAll(s1, rest);
             if Has(rest, UidItem) then Names(rest, t.uid) else t.uid == s1.uid
    ensures var t := SawAll(Saw(s, attrs[0]), attrs[1..]);
            if Has(attrs, UidItem) then Names(attrs, t.uid) else t.uid == s.uid
  {
    hide SawAll;
    var a, rest := attrs[0], attrs[1..];
    assert attrs == [a] + rest;
    HasCons(a, rest, UidItem);
    var t := SawAll(Saw(s, a), rest);
    if Has(rest, UidItem) {
      var b :| b in rest && b.UidAttr? && Number(b.number, false) == Some(t.uid);
      assert b in attrs;
    } else if a.UidAttr? {
      assert a in attrs && Number(a.number, false) == Some(t.uid);
    }
  }

  /** A list names at most one UID. */
  lemma NamesOne(attrs: seq<Attr>, x: nat, y: nat)
    requires DistinctKinds(attrs) && Names(attrs, x) && Names(attrs, y)
    ensures x == y
  {
    hide Number;
    var a: Attr :| a in attrs && a.UidAttr? && Number(a.number, false) == Some(x);
    var b: Attr :| b in attrs && b.UidAttr? && Number(b.number, false) == Some(y);
    var i :| 0 <= i < |attrs| && attrs[i] == a;
    var j :| 0 <= j < |attrs| && attrs[j] == b;
    assert Kind(attrs[i]) == Kind(attrs[j]);
  }

  // ---- One step ----

  lemma AdmitKeeps(m: Machine, kind: FrameKind)
    requires m.out + m.pending == Released(m.log)
    ensures var r := Admit(m, kind);
            && r.out + r.pending == Released(r.log)
            && Structures(r.log) == Structures(m.log) + (if kind == Structure then 1 else 0)
            && (forall f :: f in r.log ==> f in m.log || f == Framed(kind, m.frame))
  {
    var log := m.log + [Framed(kind, m.frame)];
    assert log[..|log| - 1] == m.log;
  }

  /** The machine after an octet was appended, before it is judged. */
  ghost predicate Appended(m: Machine) {
    && Running(m) && m.frame != []
    && m.out + m.pending == Released(m.log)
    && (forall f :: f in m.log ==> Approved(f, m.selected))
    && Structures(m.log) == (if m.dispatch == Delivered then 1 else 0)
  }

  lemma LineCompletes(m: Machine)
    requires Appended(m) && m.work < WORK_UNITS && 2 <= |m.frame| <= CONTROL_BYTES
    requires m.frame[|m.frame| - 2..] == CRLF && NoBreaks(m.frame[..|m.frame| - 2])
    ensures Safe(CompleteLine(m))
  {
    hide ControlLine, ControlGrammar.Prints;
    var line := m.frame[..|m.frame| - 2];
    assert m.frame == line + CRLF;
    ControlGrammar.ControlLineIff(line);
    if ControlLine(line) {
      var worked := m.(work := m.work + 1);
      AdmitKeeps(worked, Control);
      assert Approved(Framed(Control, m.frame), m.selected);
    }
  }

  lemma LineGrows(frame: bytes, spaces: nat, b: byte)
    requires frame == [] ==> spaces == 0
    requires frame != [] ==> LineSoFar(frame, spaces, false)
    requires b != LF
    ensures var grown := frame + [b];
            if b == CR then LineSoFar(grown, spaces, true)
            else LineSoFar(grown, if b == SP && grown[0] == STAR then spaces + 1 else spaces, false)
  {
    var grown := frame + [b];
    assert grown[..|grown| - 1] == frame;
    if b == CR {
      assert Line(grown, true) == frame;
    }
  }

  lemma ThirdSpaceSafe(m: Machine)
    requires Appended(m) && m.work < WORK_UNITS && |m.frame| > 3 && m.frame[0] == STAR
    requires m.frame[|m.frame| - 1] == SP && LineSoFar(m.frame, 3, false)
    ensures Safe(ThirdSpace(m))
  {
    hide ControlLine, Released, Structures, Approved;
    match JudgePrefix(m.frame)
    case BadNumber =>
    case NotFetch => hide JudgePrefix, Spaces;
    case FetchPrefix =>
      var number, name := JudgedHead(m.frame);
      hide JudgePrefix, Spaces, HeadWords;
      RunNothing(START);
      assert m.frame == Head(number, name) + [];
      assert FetchSoFar(m.frame, START, number, name, []);
  }

  lemma LineByteSafe(m: Machine, spaces: nat, cr: bool, before: bytes, b: byte)
    requires Appended(m) && m.work < WORK_UNITS && m.frame == before + [b]
    requires before == [] ==> spaces == 0 && !cr
    requires before != [] ==> LineSoFar(before, spaces, cr) && |before| > spaces && |before| + LineNeed(cr) <= CONTROL_BYTES
    ensures Safe(LineByte(m, spaces, cr, b))
  {
    hide ControlLine, Released, Structures, Approved, Spaces, JudgePrefix;
    if cr {
      if b == LF {
        assert m.frame[..|m.frame| - 2] == Line(before, true);
        LineCompletes(m);
      }
    } else if b != LF {
      LineGrows(before, spaces, b);
      if b == SP && m.frame[0] == STAR && spaces == 2 {
        ThirdSpaceSafe(m);
      }
    }
  }

  lemma FetchCompletes(m: Machine, scan: Scan, number: bytes, name: bytes, w: bytes)
    requires Appended(m) && FetchSoFar(m.frame, scan, number, name, w) && scan.lex.Finished?
    ensures Safe(CompleteFetch(m, scan))
  {
    hide Run, HeadWords, WfList, SawAll, Released, Structures;
    var attrs := ReadIsPrinted(w);
    assert FetchText(m.frame, number, name, attrs);
    assert DistinctKinds(attrs) && forall a :: a in attrs ==> WfAttr(a) by { ListParts(attrs); }
    Summary(Begun(), attrs);
    hide Has, Names, FetchText;
    if scan.structure {
      if scan.uidNamed && scan.uid == m.selected && m.dispatch == Active {
        AdmitKeeps(m.(dispatch := Delivered), Structure);
        assert Approved(Framed(Structure, m.frame), m.selected);
      }
    } else if scan.flags {
      AdmitKeeps(m, FlagsOnly);
      assert Approved(Framed(FlagsOnly, m.frame), m.selected);
    }
  }

  lemma ListParts(attrs: seq<Attr>)
    requires WfList(attrs)
    ensures DistinctKinds(attrs) && forall a :: a in attrs ==> WfAttr(a)
  {
  }

  lemma FetchByteSafe(m: Machine, scan: Scan, before: bytes, b: byte)
    requires Appended(m) && Valid(scan) && m.frame == before + [b]
    requires exists number, name, w :: FetchSoFar(before, scan, number, name, w)
    ensures Safe(FetchByte(m, scan, b))
  {
    hide ScanByte, HeadWords, Released, Structures, Approved;
    var number, name, w :| FetchSoFar(before, scan, number, name, w);
    RunConcat(START, w, [b]);
    assert [b] + [] == [b];
    RunStep(scan, b, []);
    hide Run;
    if ScanByte(scan, b).Next? {
      var next := ScanByte(scan, b).scan;
      RunNothing(next);
      assert m.frame == Head(number, name) + (w + [b]);
      var worked := m.work + next.tokens - scan.tokens;
      if next.tokens <= FETCH_TOKENS && worked <= WORK_UNITS {
        var m' := m.(work := worked);
        assert FetchSoFar(m'.frame, next, number, name, w + [b]);
        if next.lex.Finished? {
          FetchCompletes(m', next, number, name, w + [b]);
        }
      }
    }
  }

  lemma SafeFeed(m: Machine, b: byte)
    requires Safe(m)
    ensures Safe(Feed(m, b))
  {
    hide Released, Structures, Approved, ScanByte, Run, LineByte, FetchByte;
    if m.terminal.None? && !Exhausted(m) {
      var appended := Append(Start(m), b);
      match appended.mode
      case AtBoundary =>
      case InLine(spaces, cr) => LineByteSafe(appended, spaces, cr, m.frame, b);
      case InFetch(scan) => FetchByteSafe(appended, scan, m.frame, b);
    }
  }

  lemma SafeTake(m: Machine, limit: nat)
    requires Safe(m)
    ensures Safe(TakeBytes(m, limit))
  {
    hide Released, Structures, Approved;
    var r := TakeBytes(m, limit);
    assert r.out + r.pending == m.out + m.pending;
  }

  lemma SafeStep(m: Machine, e: Event)
    requires Safe(m)
    ensures Safe(Step(m, e))
  {
    hide Released, Structures, Approved;
    match e
    case Input(b) => SafeFeed(m, b);
    case Take(limit) => SafeTake(m, limit);
    case _ => hide Feed, TakeBytes;
  }

  lemma {:induction false} SafePlay(m: Machine, es: seq<Event>)
    requires Safe(m)
    ensures Safe(Play(m, es))
    decreases |es|
  {
    if es != [] {
      hide Safe, Step;
      SafeStep(m, es[0]);
      SafePlay(Step(m, es[0]), es[1..]);
    }
  }

  // ---- Whole runs ----

  /** Over every run: the bytes returned so far, and those ready, are the
      admitted frames that are not consumed, whole and in order; every admitted
      frame is a valid control line, a FLAGS-only FETCH or the structure FETCH
      of the selected UID; at most one structure is released; and no budget is
      ever exceeded. */
  lemma ReleaseSafety(selected: nat, es: seq<Event>)
    ensures var m := Play(Initial(selected), es);
            && m.out + m.pending == Released(m.log)
            && (forall f :: f in m.log ==> Approved(f, m.selected))
            && m.selected == selected
            && Structures(m.log) <= 1
            && |m.frame| <= FRAME_BYTES && m.sessionBytes <= SESSION_BYTES
            && m.responses <= RESPONSES && m.work <= WORK_UNITS
  {
    hide Feed, Approved, Play;
    var m0 := Initial(selected);
    SafePlay(m0, es);
    SelectedStays(m0, es);
  }

  lemma SelectedStep(m: Machine, e: Event)
    requires Ok(m)
    ensures Step(m, e).selected == m.selected
  {
    hide ScanByte, ControlLine, JudgePrefix;
  }

  lemma {:induction false} SelectedStays(m: Machine, es: seq<Event>)
    requires Ok(m)
    ensures Play(m, es).selected == m.selected
    decreases |es|
  {
    if es != [] {
      hide Step;
      SelectedStep(m, es[0]);
      SelectedStays(Step(m, es[0]), es[1..]);
    }
  }
}
