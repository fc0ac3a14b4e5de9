/** Nothing of an accepted ESEARCH line is passed over: the line is a correlator,
    a marker and name-value pairs with single spaces between them, and a value is
    an atom or ends at the first place where every quote and parenthesis of it is
    closed (bridge/imapclient.go:1630-1725). */
module SearchConsumed {
  import opened Octets
  import opened Sequences
  import opened Wrappers
  import opened QuarantineLexis
  import opened SearchWire
  import opened SearchESearch
  import opened SearchHeads
  import opened SearchPrinter

  // ---- Quotes and parentheses ----

  /** What is open behind some text. */
  datatype Open = Open(quoted: bool, escaped: bool, depth: int)

  const CLOSED := Open(false, false, 0)

  function Turn(o: Open, b: byte): Open {
    if o.quoted then
      if o.escaped then o.(escaped := false)
      else if b == BACKSLASH then o.(escaped := true)
      else o.(quoted := b != QUOTE)
    else if b == QUOTE then o.(quoted := true)
    else if b == LPAREN then o.(depth := o.depth + 1)
    else if b == RPAREN then o.(depth := o.depth - 1)
    else o
  }

  function Behind(s: bytes): Open {
    if s == [] then CLOSED else Turn(Behind(s[..|s| - 1]), s[|s| - 1])
  }

  /** A quoted string or list: all it opens is closed at its end and at no place
      before. */
  ghost predicate Whole(v: bytes) {
    && v != [] && (v[0] == QUOTE || v[0] == LPAREN)
    && Behind(v) == CLOSED && forall k :: 0 < k < |v| ==> Behind(v[..k]) != CLOSED
  }

  lemma BehindNext(s: bytes, k: nat)
    requires k < |s|
    ensures Behind(s[..k + 1]) == Turn(Behind(s[..k]), s[k])
  {
    assert s[..k + 1][..k] == s[..k];
  }

  /** No beginning of s of at least one and at most k octets is closed. */
  ghost predicate OpenTo(s: bytes, k: nat)
    requires k <= |s|
  {
    forall j :: 0 < j <= k ==> Behind(s[..j]) != CLOSED
  }

  /** The state of a scan at index k: what is open behind k octets. */
  ghost predicate ScanAt(s: bytes, k: nat, depth: int, quoted: bool) {
    && 0 < k <= |s| && Behind(s[..k]) == Open(quoted, false, depth) && (quoted || depth > 0) && OpenTo(s, k)
  }

  /** The scan ends at the first place where all is closed. */
  ghost predicate EndsAt(s: bytes, end: Option<nat>) {
    if end.Some? then 0 < end.value <= |s| && Behind(s[..end.value]) == CLOSED && OpenTo(s, end.value - 1)
    else OpenTo(s, |s|)
  }

  lemma {:induction false} ScanEnds(s: bytes, k: nat, depth: int, quoted: bool)
    requires ScanAt(s, k, depth, quoted) && depth >= 0
    ensures EndsAt(s, ValueEnd(s, k, depth, quoted))
    decreases |s| - k
  {
    hide Behind;
    if k < |s| {
      BehindNext(s, k);
      if quoted && s[k] == BACKSLASH {
        if k + 1 < |s| {
          BehindNext(s, k + 1);
          ScanEnds(s, k + 2, depth, quoted);
        }
      } else if s[k] == QUOTE {
        if !(quoted && depth == 0) {
          ScanEnds(s, k + 1, depth, !quoted);
        }
      } else if quoted {
        ScanEnds(s, k + 1, depth, quoted);
      } else if s[k] == LPAREN {
        ScanEnds(s, k + 1, depth + 1, quoted);
      } else if s[k] == RPAREN {
        if depth != 1 {
          ScanEnds(s, k + 1, depth - 1, quoted);
        }
      } else {
        ScanEnds(s, k + 1, depth, quoted);
      }
    }
  }

  lemma FirstEnds(s: bytes)
    requires s != [] && (s[0] == QUOTE || s[0] == LPAREN)
    ensures EndsAt(s, ValueEnd(s, 0, 0, false))
  {
    BehindNext(s, 0);
    assert s[..0] == [];
    assert Behind(s[..0]) == CLOSED;
    if s[0] == QUOTE {
      ScanEnds(s, 1, 0, true);
    } else {
      ScanEnds(s, 1, 1, false);
    }
  }

  /** A value taken off a line: an atom, or a whole quoted string or list. */
  ghost predicate Taken(v: bytes) {
    WireAtom(v) || Whole(v)
  }

  /** What the scan takes is a value, and it takes any value that an end or a
      character of no atom follows. */
  lemma ValueTaken(input: bytes)
    ensures Value(input).0 != [] ==> Taken(Value(input).0)
  {
    hide Behind, ValueEnd;
    if input != [] && (input[0] == QUOTE || input[0] == LPAREN) {
      FirstEnds(input);
      var end := ValueEnd(input, 0, 0, false);
      if end.Some? {
        var v := input[..end.value];
        assert forall k :: 0 < k <= |v| ==> v[..k] == input[..k];
        assert v[..|v|] == v;
      }
    }
  }

  lemma WholeReads(v: bytes, rest: bytes)
    requires Whole(v)
    ensures Value(v + rest) == (v, rest)
  {
    hide Behind, ValueEnd;
    var s := v + rest;
    FirstEnds(s);
    assert forall k :: 0 < k <= |v| ==> s[..k] == v[..k];
    assert v[..|v|] == v;
    assert Behind(s[..|v|]) == CLOSED;
  }

  lemma TakenBack(v: bytes, rest: bytes)
    requires Taken(v) && Ends(rest)
    ensures Value(v + rest) == (v, rest)
  {
    hide Behind;
    if WireAtom(v) {
      AtomFirst(v);
      assert (v + rest)[0] == v[0];
      SpanWord(v, rest);
    } else {
      WholeReads(v, rest);
    }
  }

  lemma AtomFirst(v: bytes)
    requires WireAtom(v)
    ensures v[0] != QUOTE && v[0] != LPAREN
  {
    assert WireAtomChar(v[0]);
  }

  // ---- The pairs ----

  /** The pairs as they stand on a line. */
  function PairsText(ps: seq<Pair>): bytes {
    if ps == [] then []
    else ps[0].name + [SP] + ps[0].value + (if |ps| == 1 then [] else [SP]) + PairsText(ps[1..])
  }

  ghost predicate TakenPair(p: Pair) {
    WireAtom(p.name) && Taken(p.value)
  }

  ghost predicate TakenPairs(ps: seq<Pair>) {
    forall i :: 0 <= i < |ps| ==> TakenPair(ps[i])
  }

  /** The text is those pairs, and one space may stand behind the last. */
  ghost predicate Holds(text: bytes, ps: seq<Pair>) {
    TakenPairs(ps) && exists trailing: bool :: text == PairsText(ps) + Blank(trailing) && (trailing ==> ps != [])
  }

  lemma NextHolds(name: bytes, value: bytes, later: bytes, ps: seq<Pair>)
    requires WireAtom(name) && Taken(value) && Holds(later, ps)
    ensures ps != [] ==> Holds(name + [SP] + value + [SP] + later, [Pair(name, value)] + ps)
    ensures ps == [] ==> Holds(name + [SP] + value + [SP] + later, [Pair(name, value)])
  {
    hide Taken, WireAtom;
    var trailing: bool :| later == PairsText(ps) + Blank(trailing) && (trailing ==> ps != []);
    var all := [Pair(name, value)] + ps;
    assert all[1..] == ps;
    if ps == [] {
      assert all == [Pair(name, value)];
      LastText(name, value);
      assert name + [SP] + value + [SP] + later == PairsText(all) + Blank(true);
    } else {
      assert name + [SP] + value + [SP] + later == PairsText(all) + Blank(trailing);
    }
  }

  lemma LastText(name: bytes, value: bytes)
    ensures PairsText([Pair(name, value)]) == name + [SP] + value
  {
    assert [Pair(name, value)][1..] == [];
    assert name + [SP] + value + [] + [] == name + [SP] + value;
  }

  lemma LastHolds(name: bytes, value: bytes)
    requires WireAtom(name) && Taken(value)
    ensures Holds(name + [SP] + value, [Pair(name, value)])
  {
    hide Taken, WireAtom;
    LastText(name, value);
    assert name + [SP] + value == PairsText([Pair(name, value)]) + Blank(false);
  }

  lemma NothingHolds()
    ensures Holds([], [])
  {
    assert [] == PairsText([]) + Blank(false);
  }

  /** The pairs that the walk takes are all there is on the line. */
  lemma {:induction false} PairsHold(name: bytes, rest: bytes)
    requires Pairs(name, rest).Some? && (name != [] ==> WireAtom(name))
    ensures Holds(name + rest, Pairs(name, rest).value)
    decreases |rest|
  {
    hide Holds, Taken, WireAtom, Value, SpanAtom;
    if name == [] {
      NothingHolds();
      assert name + rest == [];
    } else {
      var (value, after) := Value(rest[1..]);
      ValueTaken(rest[1..]);
      assert rest == [SP] + (value + after);
      if after == [] {
        LastHolds(name, value);
        assert name + rest == name + [SP] + value;
      } else {
        var next := SpanAtom(after[1..]);
        SpanIsAtom(after[1..]);
        PairsHold(next.0, next.1);
        NextHolds(name, value, next.0 + next.1, Pairs(next.0, next.1).value);
        assert after == [SP] + (next.0 + next.1);
        assert name + rest == name + [SP] + value + [SP] + (next.0 + next.1);
        assert [Pair(name, value)] + [] == [Pair(name, value)];
      }
    }
  }

  lemma {:induction false} PairsTake(ps: seq<Pair>)
    requires TakenPairs(ps)
    ensures var first := SpanAtom(PairsText(ps)); Pairs(first.0, first.1) == Some(ps)
    decreases |ps|
  {
    hide Taken, WireAtom, Value, SpanAtom;
    if ps == [] {
      NothingSpans();
    } else {
      var p, later := ps[0], ps[1..];
      var tail := (if later == [] then [] else [SP]) + PairsText(later);
      PairsStart(ps);
      SpaceEnds(p.value + tail);
      WordSpans(p.name, [SP] + (p.value + tail));
      assert ([SP] + (p.value + tail))[1..] == p.value + tail;
      assert Ends(tail);
      TakenBack(p.value, tail);
      PairsTake(later);
      TakenSome(p.value);
      assert [p] + later == ps;
      NothingSpans();
      assert if later == [] then tail == [] && ps == [p] else tail[0] == SP && tail[1..] == PairsText(later);
    }
  }

  lemma NothingSpans()
    ensures SpanAtom([]) == ([], []) && PairsText([]) == []
  {
  }

  lemma SpaceEnds(rest: bytes)
    ensures Ends([SP] + rest) && Ends([])
  {
  }

  lemma WordSpans(name: bytes, rest: bytes)
    requires WireAtom(name) && Ends(rest)
    ensures SpanAtom(name + rest) == (name, rest) && name != []
  {
    SpanWord(name, rest);
  }

  lemma TakenSome(v: bytes)
    requires Taken(v)
    ensures v != []
  {
  }

  // ---- The whole line ----

  /** The pairs behind the marker, if there is one. */
  function MarkText(marked: bool, ps: seq<Pair>): bytes {
    (if marked then UID + Blank(ps != []) else []) + PairsText(ps)
  }

  /** The text is those pairs behind that marker; without a marker no pair can
      begin with its name. */
  ghost predicate MarkedAs(s: bytes, marked: bool, ps: seq<Pair>) {
    TakenPairs(ps) && s == MarkText(marked, ps) && (!marked && ps != [] ==> ps[0].name != UID)
  }

  /** The first name behind the marker, and the text after it. */
  function StartOf(s: bytes): (bytes, bytes) {
    var named := SpanAtom(s);
    if named.0 == UID then SpanAtom(TrimPrefix(named.1, SP)) else named
  }

  predicate Tight(s: bytes) {
    s != [] ==> s[|s| - 1] != SP
  }

  /** A text that does not end in a space holds its pairs without one. */
  lemma TightHolds(s: bytes, ps: seq<Pair>)
    requires Holds(s, ps) && Tight(s)
    ensures TakenPairs(ps) && s == PairsText(ps)
  {
    hide TakenPairs;
    var trailing: bool :| s == PairsText(ps) + Blank(trailing) && (trailing ==> ps != []);
    assert PairsText(ps) + [] == PairsText(ps);
    LooseBlank(PairsText(ps));
  }

  lemma LooseBlank(s: bytes)
    ensures !Tight(s + Blank(true))
  {
  }

  lemma Regrouped(a: bytes, b: bytes, v: bytes, gap: bytes, later: bytes)
    ensures a + b + v + gap + later == a + (b + (v + (gap + later)))
  {
    Assoc(a, b, v + (gap + later));
    Assoc(a + b, v, gap + later);
    Assoc(a + b + v, gap, later);
  }

  /** The text from the first name on. */
  lemma PairsStart(ps: seq<Pair>)
    requires ps != []
    ensures var tail := (if |ps| == 1 then [] else [SP]) + PairsText(ps[1..]);
            PairsText(ps) == ps[0].name + ([SP] + (ps[0].value + tail))
  {
    Regrouped(ps[0].name, [SP], ps[0].value, if |ps| == 1 then [] else [SP], PairsText(ps[1..]));
  }

  lemma FirstSpan(ps: seq<Pair>)
    requires TakenPairs(ps)
    ensures SpanAtom(PairsText(ps)).0 == if ps == [] then [] else ps[0].name
    ensures ps != [] ==> PairsText(ps) != [] && PairsText(ps)[0] != SP
  {
    hide Taken, WireAtom, SpanAtom, PairsText;
    NothingSpans();
    if ps != [] {
      var p := ps[0];
      var tail := (if |ps| == 1 then [] else [SP]) + PairsText(ps[1..]);
      PairsStart(ps);
      SpaceEnds(p.value + tail);
      WordSpans(p.name, [SP] + (p.value + tail));
      NoSpace(p.name);
    }
  }

  lemma NoSpace(name: bytes)
    requires WireAtom(name)
    ensures name != [] && name[0] != SP
  {
    assert WireAtomChar(name[0]);
  }

  lemma MarkedReads(s: bytes, marked: bool, ps: seq<Pair>)
    requires MarkedAs(s, marked, ps)
    ensures Pairs(StartOf(s).0, StartOf(s).1) == Some(ps)
  {
    hide TakenPairs, SpanAtom, Pairs, PairsText;
    PairsTake(ps);
    FirstSpan(ps);
    if marked {
      var tail := Blank(ps != []) + PairsText(ps);
      UidIsAtom();
      assert s == UID + tail;
      NothingSpans();
      SpaceEnds(PairsText(ps));
      assert ps == [] ==> tail == [];
      assert ps != [] ==> tail[1..] == PairsText(ps);
      WordSpans(UID, tail);
    } else {
      assert [] + PairsText(ps) == PairsText(ps);
      UidIsAtom();
    }
  }

  lemma UidIsAtom()
    ensures WireAtom(UID)
  {
  }

  /** A text whose first atom is the marker. */
  lemma MarkerFound(s: bytes, tail: bytes)
    requires Tight(s) && s == UID + tail && Ends(tail)
    requires var next := SpanAtom(TrimPrefix(tail, SP)); Pairs(next.0, next.1).Some?
    ensures var next := SpanAtom(TrimPrefix(tail, SP)); MarkedAs(s, true, Pairs(next.0, next.1).value)
  {
    hide SpanAtom, Pairs, Holds, TakenPairs, WireAtom, TrimPrefix, Tight, Ends, PairsText;
    var later := TrimPrefix(tail, SP);
    var next := SpanAtom(later);
    SpanIsAtom(later);
    PairsHold(next.0, next.1);
    TailTight(s, UID, tail);
    TightHolds(later, Pairs(next.0, next.1).value);
    MarkerGap(tail, Pairs(next.0, next.1).value);
    Assoc(UID, Blank(Pairs(next.0, next.1).value != []), PairsText(Pairs(next.0, next.1).value));
  }

  lemma UnmarkedFound(s: bytes)
    requires Tight(s) && SpanAtom(s).0 != UID && Pairs(SpanAtom(s).0, SpanAtom(s).1).Some?
    ensures MarkedAs(s, false, Pairs(SpanAtom(s).0, SpanAtom(s).1).value)
  {
    hide SpanAtom, Pairs, Holds, TakenPairs, WireAtom, Tight, PairsText;
    var named := SpanAtom(s);
    var ps := Pairs(named.0, named.1).value;
    SpanIsAtom(s);
    PairsHold(named.0, named.1);
    TightHolds(s, ps);
    FirstSpan(ps);
    assert [] + PairsText(ps) == PairsText(ps);
  }

  lemma MarkedFound(s: bytes) returns (marked: bool)
    requires Tight(s) && Pairs(StartOf(s).0, StartOf(s).1).Some?
    ensures MarkedAs(s, marked, Pairs(StartOf(s).0, StartOf(s).1).value)
  {
    hide SpanAtom, Pairs, MarkedAs, Tight, WireAtom, TrimPrefix;
    SpanIsAtom(s);
    marked := SpanAtom(s).0 == UID;
    if marked {
      MarkerFound(s, SpanAtom(s).1);
    } else {
      UnmarkedFound(s);
    }
  }

  lemma TailTight(s: bytes, head: bytes, tail: bytes)
    requires Tight(s) && s == head + tail
    ensures Tight(tail) && Tight(TrimPrefix(tail, SP)) && tail != [SP]
  {
    assert tail != [] ==> tail[|tail| - 1] == s[|s| - 1];
  }

  /** Behind the marker stands one space and the pairs, or nothing. */
  lemma MarkerGap(tail: bytes, ps: seq<Pair>)
    requires Ends(tail) && tail != [SP] && TakenPairs(ps) && TrimPrefix(tail, SP) == PairsText(ps)
    ensures tail == Blank(ps != []) + PairsText(ps)
  {
    FirstAtom(ps);
    hide TakenPairs, WireAtomChar, PairsText;
    NothingSpans();
    assert [SP] + [] == [SP];
    if tail != [] && tail[0] == SP {
      assert tail == [SP] + PairsText(ps);
    } else {
      assert [] + PairsText(ps) == PairsText(ps);
    }
  }

  lemma FirstAtom(ps: seq<Pair>)
    requires TakenPairs(ps)
    ensures ps != [] ==> PairsText(ps) != [] && WireAtomChar(PairsText(ps)[0])
  {
    hide Taken, WireAtomChar;
    if ps != [] {
      assert TakenPair(ps[0]) && PairsText(ps)[0] == ps[0].name[0];
    }
  }

  // ---- The correlator ----

  /** Every closing parenthesis of s before k, but for the first octet, stands
      inside quotes. */
  ghost predicate QuotedTo(s: bytes, k: nat)
    requires k <= |s|
  {
    forall j :: 0 < j < k && s[j] == RPAREN ==> Behind(s[..j]).quoted
  }

  /** It begins with a parenthesis and ends at the first that stands outside
      quotes. */
  ghost predicate Correlator(c: bytes) {
    && |c| >= 2 && c[0] == LPAREN && c[|c| - 1] == RPAREN
    && !Behind(c[..|c| - 1]).quoted && QuotedTo(c, |c| - 1)
  }

  ghost predicate ClosesAt(s: bytes, end: Option<nat>) {
    if end.Some? then 0 < end.value < |s| && s[end.value] == RPAREN && !Behind(s[..end.value]).quoted && QuotedTo(s, end.value)
    else QuotedTo(s, |s|)
  }

  lemma {:induction false} CorrelatorScan(s: bytes, k: nat, quoted: bool)
    requires 0 < k <= |s| && Behind(s[..k]).quoted == quoted && !Behind(s[..k]).escaped && QuotedTo(s, k)
    ensures ClosesAt(s, CorrelatorEnd(s, k, quoted))
    decreases |s| - k
  {
    hide Behind;
    if k < |s| {
      BehindNext(s, k);
      if quoted && s[k] == BACKSLASH {
        if k + 1 < |s| {
          BehindNext(s, k + 1);
          CorrelatorScan(s, k + 2, quoted);
        }
      } else if s[k] == QUOTE {
        CorrelatorScan(s, k + 1, !quoted);
      } else if !(!quoted && s[k] == RPAREN) {
        CorrelatorScan(s, k + 1, quoted);
      }
    }
  }

  lemma CorrelatorIs(s: bytes)
    requires s != [] && s[0] == LPAREN
    ensures ClosesAt(s, CorrelatorEnd(s, 1, false))
  {
    BehindNext(s, 0);
    assert s[..0] == [];
    assert Behind(s[..0]) == CLOSED;
    CorrelatorScan(s, 1, false);
  }

  /** A longer text is quoted where its beginning is. */
  lemma QuotedAlike(c: bytes, rest: bytes, k: nat)
    requires k < |c|
    ensures QuotedTo(c + rest, k) <==> QuotedTo(c, k)
    ensures (c + rest)[..k] == c[..k] && (c + rest)[k] == c[k]
  {
    hide Behind;
    var s := c + rest;
    forall j | 0 < j < k ensures s[..j] == c[..j] && s[j] == c[j] {
    }
  }

  lemma CorrelatorFound(s: bytes, end: nat)
    requires s != [] && s[0] == LPAREN && CorrelatorEnd(s, 1, false) == Some(end)
    ensures end < |s| && Correlator(s[..end + 1]) && s == s[..end + 1] + s[end + 1..]
  {
    hide Behind, CorrelatorEnd, QuotedTo;
    CorrelatorIs(s);
    var c, rest := s[..end + 1], s[end + 1..];
    assert s == c + rest;
    QuotedAlike(c, rest, end);
  }

  lemma CorrelatorReads(c: bytes, rest: bytes)
    requires Correlator(c)
    ensures c[0] == LPAREN && CorrelatorEnd(c + rest, 1, false) == Some(|c| - 1) && (c + rest)[|c|..] == rest
  {
    hide Behind, CorrelatorEnd, QuotedTo;
    var s := c + rest;
    CorrelatorIs(s);
    QuotedAlike(c, rest, |c| - 1);
    OneClosing(s, CorrelatorEnd(s, 1, false), |c| - 1);
  }

  lemma OneClosing(s: bytes, end: Option<nat>, k: nat)
    requires 0 < k < |s| && ClosesAt(s, end) && ClosesAt(s, Some(k))
    ensures end == Some(k)
  {
    hide Behind;
  }

  // ---- The line ----

  datatype Layout = Layout(correlator: Option<bytes>, apart: bool, marked: bool, ps: seq<Pair>)

  function Front(l: Layout): bytes {
    if l.correlator.None? then [] else l.correlator.value + Blank(l.apart)
  }

  function LineText(l: Layout): bytes {
    Front(l) + MarkText(l.marked, l.ps)
  }

  ghost predicate WfLayout(l: Layout) {
    && MarkedAs(MarkText(l.marked, l.ps), l.marked, l.ps)
    && if l.correlator.Some? then Correlator(l.correlator.value) else !l.apart
  }

  lemma {:induction false} TrimTight(s: bytes)
    ensures Tight(TrimRight(s))
    decreases |s|
  {
    if SpaceBefore(s) > 0 {
      TrimTight(s[..|s| - SpaceBefore(s)]);
    } else if s != [] {
      assert s[|s| - 1..] == [s[|s| - 1]];
    }
  }

  /** Behind the correlator no space stands but the one that may. */
  lemma MarkStarts(marked: bool, ps: seq<Pair>)
    requires TakenPairs(ps)
    ensures var m := MarkText(marked, ps); m != [] ==> m[0] != SP && m[0] != LPAREN
  {
    FirstAtom(ps);
    hide TakenPairs, WireAtomChar;
    AtomStarts();
    if !marked {
      assert [] + PairsText(ps) == PairsText(ps);
    }
  }

  lemma AtomStarts()
    ensures !WireAtomChar(SP) && !WireAtomChar(LPAREN)
  {
  }

  /** The text in which the first name is looked for. */
  function AfterFront(line: bytes): Option<bytes> {
    if line == [] || line[0] != LPAREN then Some(line)
    else
      var closing := CorrelatorEnd(line, 1, false);
      if closing.None? then None else Some(TrimPrefix(line[closing.value + 1..], SP))
  }

  lemma BeginningIs(text: bytes)
    ensures var after := AfterFront(TrimRight(TrimLeft(text)));
            Beginning(text) == if after.None? then None else Some(StartOf(after.value))
  {
    hide TrimRight, TrimLeft, CorrelatorEnd, SpanAtom, TrimPrefix;
  }

  /** A line laid out so is begun and walked as its layout says. */
  lemma LaidOutReads(l: Layout)
    requires WfLayout(l)
    ensures AfterFront(LineText(l)) == Some(MarkText(l.marked, l.ps))
  {
    hide AfterFront, Correlator, MarkText, TakenPairs;
    var m := MarkText(l.marked, l.ps);
    MarkStarts(l.marked, l.ps);
    if l.correlator.Some? {
      CorrelatedReads(l.correlator.value, l.apart, m);
    } else {
      assert LineText(l) == m;
      PlainReads(m);
    }
  }

  lemma PlainReads(m: bytes)
    requires m != [] ==> m[0] != LPAREN
    ensures AfterFront(m) == Some(m)
  {
  }

  lemma CorrelatedReads(c: bytes, apart: bool, m: bytes)
    requires Correlator(c) && (m != [] ==> m[0] != SP)
    ensures AfterFront(c + Blank(apart) + m) == Some(m)
  {
    hide CorrelatorEnd, Correlator;
    var tail := Blank(apart) + m;
    CorrelatorReads(c, tail);
    CorrelatorSome(c);
    Assoc(c, Blank(apart), m);
    assert (c + tail)[0] == c[0];
    assert TrimPrefix(tail, SP) == m;
  }

  lemma CorrelatorSome(c: bytes)
    requires Correlator(c)
    ensures |c| >= 2
  {
  }

  /** What stands between a correlator and the text behind it. */
  lemma GapIs(tail: bytes)
    ensures var apart := tail != [] && tail[0] == SP; tail == Blank(apart) + TrimPrefix(tail, SP)
  {
    if tail != [] && tail[0] == SP {
      assert tail == [SP] + tail[1..];
    } else {
      assert [] + tail == tail;
    }
  }

  lemma CorrelatedFound(line: bytes, end: nat) returns (l: Layout)
    requires Tight(line) && line != [] && line[0] == LPAREN && CorrelatorEnd(line, 1, false) == Some(end) && end < |line|
    requires var start := StartOf(TrimPrefix(line[end + 1..], SP)); Pairs(start.0, start.1).Some?
    ensures var start := StartOf(TrimPrefix(line[end + 1..], SP));
            WfLayout(l) && LineText(l) == line && l.ps == Pairs(start.0, start.1).value
  {
    hide CorrelatorEnd, Correlator, StartOf, Pairs, MarkText, Tight, TrimPrefix, TakenPairs;
    CorrelatorFound(line, end);
    var c, tail := line[..end + 1], line[end + 1..];
    var after := TrimPrefix(tail, SP);
    TailTight(line, c, tail);
    var marked := MarkedFound(after);
    GapIs(tail);
    var apart := tail != [] && tail[0] == SP;
    l := Layout(Some(c), apart, marked, Pairs(StartOf(after).0, StartOf(after).1).value);
    Assoc(c, Blank(apart), after);
  }

  lemma PlainFound(line: bytes) returns (l: Layout)
    requires Tight(line) && Pairs(StartOf(line).0, StartOf(line).1).Some?
    ensures WfLayout(l) && LineText(l) == line && l.ps == Pairs(StartOf(line).0, StartOf(line).1).value
  {
    hide StartOf, Pairs, MarkText, Tight, TakenPairs;
    var marked := MarkedFound(line);
    l := Layout(None, false, marked, Pairs(StartOf(line).0, StartOf(line).1).value);
    assert [] + MarkText(marked, l.ps) == MarkText(marked, l.ps);
  }

  /** A tight line that is begun has a layout. */
  lemma LayoutFound(line: bytes, after: bytes) returns (l: Layout)
    requires Tight(line) && AfterFront(line) == Some(after) && Pairs(StartOf(after).0, StartOf(after).1).Some?
    ensures WfLayout(l) && LineText(l) == line && l.ps == Pairs(StartOf(after).0, StartOf(after).1).value
  {
    hide CorrelatorEnd, WfLayout, LineText, StartOf, Pairs, Tight, TrimPrefix;
    if line == [] || line[0] != LPAREN {
      l := PlainFound(line);
    } else {
      l := CorrelatedFound(line, CorrelatorEnd(line, 1, false).value);
    }
  }

  /** A line is accepted exactly when, but for the white space around it, it is a
      correlator, a marker and pairs laid out with nothing left over, and no ALL
      set among them is malformed or names a number twice; the intervals shown
      are those of its ALL sets. */
  lemma CleanLineIff(text: bytes)
    ensures CleanLine(text) <==>
              exists l :: WfLayout(l) && LineText(l) == TrimRight(TrimLeft(text)) && CleanPairs(l.ps)
    ensures forall l :: WfLayout(l) && LineText(l) == TrimRight(TrimLeft(text)) && CleanPairs(l.ps) ==>
              CleanLine(text) && LineIntervals(text) == AllIntervals(l.ps)
  {
    hide TrimRight, TrimLeft, CleanPairs, WfLayout, LineText, AfterFront, StartOf, Pairs, AllIntervals;
    var line := TrimRight(TrimLeft(text));
    BeginningIs(text);
    forall l | WfLayout(l) && LineText(l) == line
      ensures Beginning(text).Some? && Pairs(Beginning(text).value.0, Beginning(text).value.1) == Some(l.ps)
    {
      LaidOutPairs(l);
    }
    if CleanLine(text) {
      TrimTight(TrimLeft(text));
      var l := LayoutFound(line, AfterFront(line).value);
      assert WfLayout(l) && LineText(l) == line && CleanPairs(l.ps);
    }
  }

  lemma LaidOutPairs(l: Layout)
    requires WfLayout(l)
    ensures var after := AfterFront(LineText(l)); after.Some? && Pairs(StartOf(after.value).0, StartOf(after.value).1) == Some(l.ps)
  {
    hide AfterFront, LineText, StartOf, Pairs, MarkedAs, MarkText, Correlator;
    LaidOutReads(l);
    MarkedReads(MarkText(l.marked, l.ps), l.marked, l.ps);
  }
}
