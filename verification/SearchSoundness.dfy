/** What an observation without complaint means: every line of the stream reads
    as the client library reads it, no number is named twice, and every number
    is nonzero and inside the searched window. */
module SearchSoundness {
  import opened Octets
  import opened Sequences
  import opened SearchWire
  import opened SearchSets
  import opened SearchESearch
  import opened SearchObserver

  /** Nonzero, and inside the window when one is set. */
  ghost predicate Allowed(i: Interval, w: Window) {
    && i.start > 0 && i.stop > 0
    && (Width(w) > 0 ==> w.start <= i.start && i.stop <= w.end)
  }

  ghost predicate AllAllowed(s: seq<Interval>, w: Window) {
    forall i :: 0 <= i < |s| ==> Allowed(s[i], w)
  }

  ghost predicate NumbersAllowed(s: seq<nat>, w: Window) {
    forall i :: 0 <= i < |s| ==> Allowed(Interval(s[i], s[i]), w)
  }

  ghost predicate ReadsAsNumbers(text: bytes) {
    GroupOk(text) && AllParse(Fields(BeforeGroup(text), []))
  }

  function SearchNumbers(text: bytes): seq<nat>
    requires AllParse(Fields(BeforeGroup(text), []))
  {
    Numbers(Fields(BeforeGroup(text), []))
  }

  /** The line is well formed and names only allowed numbers. */
  ghost predicate Proper(line: Line, w: Window) {
    && !line.malformed
    && (line.kind == SearchKind ==> ReadsAsNumbers(line.text) && NumbersAllowed(SearchNumbers(line.text), w))
    && (line.kind == ESearchKind && line.whole ==> CleanLine(line.text) && AllAllowed(LineIntervals(line.text), w))
  }

  /** The numbers of one SEARCH line. */
  ghost function LineNumbers(line: Line): seq<nat> {
    if line.kind == SearchKind && ReadsAsNumbers(line.text) then SearchNumbers(line.text) else []
  }

  ghost function AllNumbers(lines: seq<Line>): seq<nat> {
    if lines == [] then [] else LineNumbers(lines[0]) + AllNumbers(lines[1..])
  }

  /** What the stream must be for the observer to have no complaint. */
  ghost predicate Acceptable(lines: seq<Line>, w: Window) {
    && (forall i :: 0 <= i < |lines| ==> Proper(lines[i], w))
    && Distinct(AllNumbers(lines))
  }

  ghost predicate Fresh(s: seq<nat>, seen: set<nat>) {
    && Distinct(s)
    && forall i :: 0 <= i < |s| ==> s[i] !in seen
  }

  ghost function SetOf(s: seq<nat>): set<nat> {
    set n | n in s
  }

  lemma FreshCons(n: nat, s: seq<nat>, seen: set<nat>)
    ensures Fresh([n] + s, seen) <==> n !in seen && Fresh(s, seen + {n})
  {
    var all := [n] + s;
    if Fresh(all, seen) {
      assert all[0] == n;
      forall i | 0 <= i < |s| ensures s[i] !in seen + {n} {
        assert s[i] == all[i + 1];
      }
      forall i, j | 0 <= i < j < |s| ensures s[i] != s[j] {
        assert s[i] == all[i + 1] && s[j] == all[j + 1];
      }
    }
  }

  lemma FreshConcat(a: seq<nat>, b: seq<nat>, seen: set<nat>)
    ensures Fresh(a + b, seen) <==> Fresh(a, seen) && Fresh(b, seen + SetOf(a))
  {
    var all := a + b;
    if Fresh(all, seen) {
      forall i | 0 <= i < |a| ensures a[i] !in seen {
        assert a[i] == all[i];
      }
      forall i, j | 0 <= i < j < |a| ensures a[i] != a[j] {
        assert a[i] == all[i] && a[j] == all[j];
      }
      forall i | 0 <= i < |b| ensures b[i] !in seen + SetOf(a) {
        assert b[i] == all[|a| + i];
        forall k | 0 <= k < |a| ensures a[k] != b[i] {
          assert a[k] == all[k];
        }
      }
      forall i, j | 0 <= i < j < |b| ensures b[i] != b[j] {
        assert b[i] == all[|a| + i] && b[j] == all[|a| + j];
      }
    }
  }

  lemma SetOfConcat(a: seq<nat>, b: seq<nat>)
    ensures SetOf(a + b) == SetOf(a) + SetOf(b)
  {
  }

  // ---- One line ----

  lemma UidJudged(t: Tally, n: nat)
    ensures var u := ObserveUid(t, n);
            && u.window == t.window && u.uids == t.uids + {n}
            && (Clear(u) <==> Clear(t) && Allowed(Interval(n, n), t.window) && n !in t.uids)
  {
  }

  lemma {:induction false} FieldsJudged(t: Tally, fields: seq<bytes>)
    ensures var u := ObserveFields(t, fields);
            && u.window == t.window
            && (Clear(u) <==> Clear(t) && AllParse(fields) && NumbersAllowed(Numbers(fields), t.window)
                              && Fresh(Numbers(fields), t.uids))
            && (Clear(u) ==> u.uids == t.uids + SetOf(Numbers(fields)))
    decreases |fields|
  {
    hide ParseUint, Fresh, ObserveUid, Allowed, NumbersAllowed, AllParse, SetOf;
    ParseCons(fields);
    if fields == [] {
      Nothing(t.uids);
      NoneSet(t.uids);
    } else if ParseUint(fields[0], MAX_UINT32).Some? {
      var n := ParseUint(fields[0], MAX_UINT32).value;
      UidJudged(t, n);
      FieldsJudged(ObserveUid(t, n), fields[1..]);
      if AllParse(fields) {
        var later := Numbers(fields[1..]);
        assert Numbers(fields) == [n] + later;
        FreshCons(n, later, t.uids);
        AllowedCons(n, later, t.window);
        SetOfCons(n, later, t.uids);
      }
    }
  }

  lemma NoneSet(seen: set<nat>)
    ensures seen + SetOf([]) == seen && forall w :: NumbersAllowed([], w)
  {
  }

  lemma SetOfCons(n: nat, s: seq<nat>, seen: set<nat>)
    ensures seen + {n} + SetOf(s) == seen + SetOf([n] + s)
  {
  }

  lemma Nothing(seen: set<nat>)
    ensures Fresh([], seen)
  {
  }

  lemma ParseCons(fields: seq<bytes>)
    ensures fields == [] ==> AllParse(fields)
    ensures fields != [] ==> (AllParse(fields) <==> ParseUint(fields[0], MAX_UINT32).Some? && AllParse(fields[1..]))
  {
    hide ParseUint;
    forall i | 0 < i < |fields| ensures fields[i] == fields[1..][i - 1] {
    }
  }

  lemma AllowedCons(n: nat, s: seq<nat>, w: Window)
    ensures NumbersAllowed([n] + s, w) <==> Allowed(Interval(n, n), w) && NumbersAllowed(s, w)
  {
    hide Allowed;
    var all := [n] + s;
    assert forall i :: 0 <= i < |s| ==> s[i] == all[i + 1];
    assert all[0] == n;
    if NumbersAllowed(all, w) {
      forall i | 0 <= i < |s| ensures Allowed(Interval(s[i], s[i]), w) {
        assert s[i] == all[i + 1];
      }
    }
  }

  lemma {:induction false} RangesJudged(t: Tally, ranges: seq<Interval>)
    ensures var u := ObserveRanges(t, ranges);
            && u.window == t.window && u.uids == t.uids
            && (Clear(u) <==> Clear(t) && AllAllowed(ranges, t.window))
    decreases |ranges|
  {
    if ranges != [] {
      RangesJudged(ObserveRange(t, ranges[0]), ranges[1..]);
      assert forall i :: 0 < i < |ranges| ==> ranges[i] == ranges[1..][i - 1];
      assert Clear(ObserveRange(t, ranges[0])) <==> Clear(t) && Allowed(ranges[0], t.window);
    }
  }

  lemma ESearchJudged(t: Tally, text: bytes)
    ensures var u := ObserveESearch(t, text);
            && u.window == t.window && u.uids == t.uids
            && (Clear(u) <==> Clear(t) && CleanLine(text) && AllAllowed(LineIntervals(text), t.window))
  {
    hide CleanLine, LineIntervals, AllAllowed, ObserveRanges, Walk;
    RangesJudged(t, Walk(text).observed);
    WalkIs(text);
  }

  lemma SearchJudged(t: Tally, text: bytes)
    ensures var u := ObserveSearch(t, text);
            && u.window == t.window
            && (Clear(u) <==> Clear(t) && ReadsAsNumbers(text) && NumbersAllowed(SearchNumbers(text), t.window)
                              && Fresh(SearchNumbers(text), t.uids))
            && (Clear(u) ==> u.uids == t.uids + SetOf(SearchNumbers(text)))
  {
    hide ObserveFields, Fields, AllParse, NumbersAllowed, Fresh, GroupOk, BeforeGroup, SetOf;
    FieldsJudged(t.(incomplete := t.incomplete || !GroupOk(text)), Fields(BeforeGroup(text), []));
  }

  lemma LineJudged(t: Tally, line: Line)
    ensures var u := Judge(t, line);
            && u.window == t.window
            && (Clear(u) <==> Clear(t) && Proper(line, t.window) && Fresh(LineNumbers(line), t.uids))
            && (Clear(u) ==> u.uids == t.uids + SetOf(LineNumbers(line)))
  {
    hide ObserveSearch, ObserveESearch, ReadsAsNumbers, CleanLine, LineIntervals, SearchNumbers, NumbersAllowed, AllAllowed, Fresh;
    Nothing(t.uids);
    assert t.uids + SetOf([]) == t.uids;
    var u := t.(incomplete := t.incomplete || line.malformed);
    if line.kind == SearchKind {
      SearchJudged(u.(searchSeen := true), line.text);
    } else if line.kind == ESearchKind && line.whole {
      ESearchJudged(u.(eSearchSeen := true), line.text);
    }
  }

  // ---- The whole stream ----

  lemma {:induction false} LinesJudged(t: Tally, lines: seq<Line>)
    ensures var u := JudgeAll(t, lines);
            && u.window == t.window
            && (Clear(u) <==> Clear(t) && (forall i :: 0 <= i < |lines| ==> Proper(lines[i], t.window))
                              && Fresh(AllNumbers(lines), t.uids))
            && (Clear(u) ==> u.uids == t.uids + SetOf(AllNumbers(lines)))
    decreases |lines|
  {
    hide Judge, Proper, LineNumbers, Fresh, Clear;
    if lines == [] {
      Nothing(t.uids);
      assert t.uids + SetOf([]) == t.uids;
    } else {
      var u := Judge(t, lines[0]);
      LineJudged(t, lines[0]);
      LinesJudged(u, lines[1..]);
      var mine, later := LineNumbers(lines[0]), AllNumbers(lines[1..]);
      FreshConcat(mine, later, t.uids);
      SetOfConcat(mine, later);
      assert forall i :: 0 < i < |lines| ==> lines[i] == lines[1..][i - 1];
      if Clear(JudgeAll(t, lines)) {
        assert t.uids + SetOf(mine) + SetOf(later) == t.uids + SetOf(mine + later);
      }
    }
  }

  lemma {:induction false} LinesSeen(t: Tally, lines: seq<Line>)
    ensures var u := JudgeAll(t, lines);
            && (u.searchSeen <==> t.searchSeen || exists i :: 0 <= i < |lines| && lines[i].kind == SearchKind)
            && (u.eSearchSeen <==> t.eSearchSeen || exists i :: 0 <= i < |lines| && lines[i].kind == ESearchKind)
    decreases |lines|
  {
    hide Judge;
    if lines != [] {
      LineSeen(t, lines[0]);
      LinesSeen(Judge(t, lines[0]), lines[1..]);
      assert forall i :: 0 < i < |lines| ==> lines[i] == lines[1..][i - 1];
      assert forall i :: 0 <= i < |lines| - 1 ==> lines[1..][i] == lines[i + 1];
    }
  }

  lemma LineSeen(t: Tally, line: Line)
    ensures var u := Judge(t, line);
            && (u.searchSeen <==> t.searchSeen || line.kind == SearchKind)
            && (u.eSearchSeen <==> t.eSearchSeen || line.kind == ESearchKind)
  {
    hide ObserveFields, ObserveRanges, Walk;
    if line.kind == SearchKind {
      var u := t.(incomplete := t.incomplete || line.malformed, searchSeen := true);
      FieldsSeen(u.(incomplete := u.incomplete || !GroupOk(line.text)), Fields(BeforeGroup(line.text), []));
    } else if line.kind == ESearchKind {
      RangesSeen(t.(incomplete := t.incomplete || line.malformed, eSearchSeen := true), Walk(line.text).observed);
    }
  }

  lemma {:induction false} FieldsSeen(t: Tally, fields: seq<bytes>)
    ensures ObserveFields(t, fields).searchSeen == t.searchSeen && ObserveFields(t, fields).eSearchSeen == t.eSearchSeen
    decreases |fields|
  {
    hide ParseUint;
    if fields != [] && ParseUint(fields[0], MAX_UINT32).Some? {
      FieldsSeen(ObserveUid(t, ParseUint(fields[0], MAX_UINT32).value), fields[1..]);
    }
  }

  lemma {:induction false} RangesSeen(t: Tally, ranges: seq<Interval>)
    ensures ObserveRanges(t, ranges).searchSeen == t.searchSeen && ObserveRanges(t, ranges).eSearchSeen == t.eSearchSeen
    decreases |ranges|
  {
    if ranges != [] {
      RangesSeen(ObserveRange(t, ranges[0]), ranges[1..]);
    }
  }

  /** The lines of a whole stream. */
  function StreamLines(stream: bytes): seq<Line> {
    Drain(Append(FRESH, stream)).1
  }

  /** The observer, after any chunking of any stream, has no complaint exactly
      when the stream is acceptable; it then knows every number named. */
  lemma AcceptedIff(w: Window, chunks: seq<bytes>)
    ensures var lines := StreamLines(Flatten(chunks));
            var t := ObserveAll(Observer(FRESH, EMPTY.(window := w)), chunks).tally;
            && (Clear(t) <==> Acceptable(lines, w))
            && (Clear(t) ==> t.uids == SetOf(AllNumbers(lines)))
            && (t.searchSeen <==> exists i :: 0 <= i < |lines| && lines[i].kind == SearchKind)
            && (t.eSearchSeen <==> exists i :: 0 <= i < |lines| && lines[i].kind == ESearchKind)
  {
    hide Drain, JudgeAll, AllNumbers, Proper, ObserveAll;
    var o := Observer(FRESH, EMPTY.(window := w));
    ChunkingIsInvisible(o, chunks);
    var lines := StreamLines(Flatten(chunks));
    LinesJudged(o.tally, lines);
    LinesSeen(o.tally, lines);
  }

  /** No number lies in two intervals. */
  ghost predicate NamesOnce(s: seq<Interval>) {
    forall n: nat, i, j :: 0 <= i < j < |s| && Contains(s[i], n) ==> !Contains(s[j], n)
  }

  /** A clean set names no number twice, as numbers and not only as ranges. */
  lemma CleanSetNamesOnce(p: Pair)
    requires CleanPair(p)
    ensures NamesOnce(SetIntervals(p))
  {
    hide Split, ParseInterval, IsAll;
    OverlapIsRepeat(SetIntervals(p));
  }

  /** In particular no accepted number is repeated, zero or out of the window,
      over all SEARCH lines and within each ALL set of each ESEARCH. */
  lemma AcceptedNames(w: Window, lines: seq<Line>, k: nat)
    requires Acceptable(lines, w) && k < |lines|
    ensures Distinct(AllNumbers(lines)) && forall n :: n in AllNumbers(lines) ==> Allowed(Interval(n, n), w)
    ensures lines[k].kind == ESearchKind && lines[k].whole ==>
              var start := Beginning(lines[k].text).value;
              var pairs := Pairs(start.0, start.1).value;
              && (forall p :: p in pairs && IsAll(p) ==> NamesOnce(SetIntervals(p)))
              && (forall i :: 0 <= i < |AllIntervals(pairs)| ==> Allowed(AllIntervals(pairs)[i], w))
  {
    hide Pairs, Beginning, SetIntervals, NamesOnce, Allowed, IsAll;
    NumbersAreAllowed(w, lines);
    var line := lines[k];
    if line.kind == ESearchKind && line.whole {
      assert Proper(line, w);
      var pairs := Pairs(Beginning(line.text).value.0, Beginning(line.text).value.1).value;
      forall p | p in pairs ensures NamesOnce(SetIntervals(p)) {
        CleanSetNamesOnce(p);
      }
    }
  }

  lemma {:induction false} NumbersAreAllowed(w: Window, lines: seq<Line>)
    requires forall i :: 0 <= i < |lines| ==> Proper(lines[i], w)
    ensures forall n :: n in AllNumbers(lines) ==> Allowed(Interval(n, n), w)
    decreases |lines|
  {
    hide CleanLine, LineIntervals, ReadsAsNumbers, SearchNumbers;
    if lines != [] {
      assert forall i :: 0 <= i < |lines| - 1 ==> lines[1..][i] == lines[i + 1];
      NumbersAreAllowed(w, lines[1..]);
      assert Proper(lines[0], w);
    }
  }

  /** The octets of a literal are never read: any others of the same number
      leave the same observation. */
  lemma LiteralIsOpaque(f: Framer, payload: bytes, other: bytes, rest: bytes)
    requires |payload| == |other|
    ensures Drain(f.(buffer := payload + rest, literal := |payload|)) == Drain(f.(buffer := other + rest, literal := |other|))
  {
    hide TakeLine;
    assert rest != [] ==> (payload + rest)[|payload|..] == rest && (other + rest)[|other|..] == rest;
    assert payload == [] ==> payload + rest == other + rest;
    assert Skip(f.(buffer := payload + rest, literal := |payload|)) == Skip(f.(buffer := other + rest, literal := |other|));
  }
}
