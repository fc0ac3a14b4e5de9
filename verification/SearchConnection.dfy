/** The connection that meters what one command may read and observes the raw
    responses of a running SEARCH (bridge/imapclient.go:1264-1502,
    1590-1614). */
module SearchConnection {
  import opened Octets
  import opened SearchWire
  import opened SearchSets
  import opened SearchESearch
  import opened SearchObserver

  datatype Observation = Observation(
    exceeded: bool,
    searchSeen: bool,
    eSearchSeen: bool,
    duplicate: bool,
    incomplete: bool,
    outOfWindow: bool)

  class ReadBudgetConn {
    const idleLimit: nat
    var active: bool
    var remaining: nat
    var exceeded: bool
    var searchActive: bool
    var searchResponseSeen: bool
    var eSearchResponseSeen: bool
    var searchBuffer: bytes
    var searchLiteralBytes: nat
    var searchContinues: bool
    var searchPending: bytes
    var searchUids: set<nat>
    var searchDuplicate: bool
    var searchIncomplete: bool
    var searchWindow: Window
    var searchOutOfWindow: bool

    ghost function Framing(): Framer
      reads this
    {
      Framer(searchBuffer, searchLiteralBytes, searchContinues, searchPending)
    }

    ghost function Noted(): Tally
      reads this
    {
      Tally(searchWindow, searchResponseSeen, eSearchResponseSeen, searchUids, searchDuplicate, searchIncomplete, searchOutOfWindow)
    }

    /** The search state as the observer of the specification. */
    ghost function Observed(): Observer
      reads this
    {
      Observer(Framing(), Noted())
    }

    constructor (limit: nat)
      ensures idleLimit == limit && active && remaining == limit && !exceeded && !searchActive && Observed() == START
    {
      idleLimit, active, remaining, exceeded, searchActive := limit, true, limit, false, false;
      searchResponseSeen, eSearchResponseSeen, searchBuffer, searchLiteralBytes := false, false, [], 0;
      searchContinues, searchPending, searchUids := false, [], {};
      searchDuplicate, searchIncomplete, searchWindow, searchOutOfWindow := false, false, Window(0, 0), false;
    }

    method ForgetSearch()
      modifies this`searchResponseSeen, this`eSearchResponseSeen, this`searchBuffer, this`searchLiteralBytes,
               this`searchContinues, this`searchPending, this`searchUids, this`searchDuplicate, this`searchIncomplete,
               this`searchWindow, this`searchOutOfWindow
      ensures Observed() == START
    {
      searchResponseSeen, eSearchResponseSeen, searchBuffer, searchLiteralBytes := false, false, [], 0;
      searchContinues, searchPending, searchUids := false, [], {};
      searchDuplicate, searchIncomplete, searchWindow, searchOutOfWindow := false, false, Window(0, 0), false;
    }

    method Begin(limit: nat)
      modifies this`active, this`remaining, this`exceeded
      ensures active && remaining == limit && !exceeded
    {
      active, remaining, exceeded := true, limit, false;
    }

    method BeginSearch(limit: nat)
      modifies this
      ensures active && remaining == limit && !exceeded && searchActive && Observed() == START
    {
      Begin(limit);
      searchActive := true;
      ForgetSearch();
    }

    /** Makes the running observation refuse any UID outside the window. */
    method CheckSearchWindow(window: Window)
      modifies this`searchWindow
      ensures Observed() == old(Observed()).(tally := old(Noted()).(window := window))
    {
      searchWindow := window;
    }

    /** Reports the observation and forgets it. */
    method EndSearch() returns (o: Observation)
      modifies this
      ensures o == old(Observation(exceeded, searchResponseSeen, eSearchResponseSeen, searchDuplicate, searchIncomplete, searchOutOfWindow))
      ensures active && remaining == idleLimit && !exceeded && !searchActive && Observed() == START
    {
      o := Observation(exceeded, searchResponseSeen, eSearchResponseSeen, searchDuplicate, searchIncomplete, searchOutOfWindow);
      active, remaining, exceeded, searchActive := true, idleLimit, false, false;
      ForgetSearch();
    }

    method End() returns (was: bool)
      modifies this`active, this`remaining, this`exceeded
      ensures was == old(exceeded) && active && remaining == idleLimit && !exceeded
    {
      was := exceeded;
      active, remaining, exceeded := true, idleLimit, false;
    }

    /** One read of at most capacity octets, of which the network has arrived
        to give; refused when the budget is spent. */
    method Read(capacity: nat, arrived: bytes) returns (got: bytes, refused: bool)
      modifies this
      ensures active == old(active) && searchActive == old(searchActive)
      ensures refused <==> old(active) && old(remaining) == 0
      ensures refused ==> got == [] && exceeded && remaining == 0 && Observed() == old(Observed())
      ensures !refused ==> exceeded == old(exceeded) && |got| <= capacity && HasPrefix(arrived, got)
      ensures !refused && old(active) ==> |got| <= old(remaining) && remaining == old(remaining) - |got|
      ensures !refused && !old(active) ==> remaining == old(remaining) && Observed() == old(Observed())
      ensures !refused && old(active) ==>
                Observed() == if old(searchActive) && got != [] then Observe(old(Observed()), got) else old(Observed())
    {
      if active && remaining == 0 {
        exceeded := true;
        return [], true;
      }
      var room := if active && capacity > remaining then remaining else capacity;
      got, refused := arrived[..if |arrived| < room then |arrived| else room], false;
      if active {
        remaining := remaining - |got|;
        if searchActive && |got| > 0 {
          ObserveSearchResponseLocked(got);
        }
      }
    }

    method SearchRangeLocked(start: nat, stop: nat)
      modifies this`searchIncomplete, this`searchOutOfWindow
      ensures Noted() == ObserveRange(old(Noted()), Interval(start, stop))
    {
      if start == 0 || stop == 0 {
        searchIncomplete := true;
        return;
      }
      if Width(searchWindow) == 0 {
        return;
      }
      if start < searchWindow.start || stop > searchWindow.end {
        searchOutOfWindow := true;
      }
    }

    /** Records every interval a line's walk passed on, in order. */
    method RecordRanges(ranges: seq<Interval>)
      modifies this`searchIncomplete, this`searchOutOfWindow
      ensures Noted() == ObserveRanges(old(Noted()), ranges)
    {
      hide ObserveRange;
      var i := 0;
      assert ranges[0..] == ranges;
      while i < |ranges|
        invariant i <= |ranges|
        invariant ObserveRanges(Noted(), ranges[i..]) == ObserveRanges(old(Noted()), ranges)
      {
        assert ranges[i..][1..] == ranges[i + 1..];
        SearchRangeLocked(ranges[i].start, ranges[i].stop);
        i := i + 1;
      }
    }

    method ObserveSearchUidsLocked(numbers: bytes)
      modifies this`searchIncomplete, this`searchOutOfWindow, this`searchDuplicate, this`searchUids
      ensures Noted() == ObserveSearch(old(Noted()), numbers)
    {
      hide ModSeqGroup, Fields, ParseUint, ObserveRange;
      if LPAREN in numbers {
        if !ModSeqGroup(numbers[Find(numbers, LPAREN)..]) {
          searchIncomplete := true;
        }
      }
      var fields := Fields(BeforeGroup(numbers), []);
      label Grouped:
      var i := 0;
      assert fields[0..] == fields;
      while i < |fields|
        invariant i <= |fields|
        invariant ObserveFields(Noted(), fields[i..]) == ObserveFields(old@Grouped(Noted()), fields)
      {
        var uid := ParseUint(fields[i], MAX_UINT32);
        if uid.None? {
          searchIncomplete := true;
          return;
        }
        assert fields[i..][1..] == fields[i + 1..];
        SearchRangeLocked(uid.value, uid.value);
        if uid.value in searchUids {
          searchDuplicate := true;
        }
        searchUids := searchUids + {uid.value};
        i := i + 1;
      }
    }

    method JudgeSearch(text: bytes)
      modifies this`searchResponseSeen, this`searchIncomplete, this`searchOutOfWindow, this`searchDuplicate, this`searchUids
      ensures Noted() == ObserveSearch(old(Noted()).(searchSeen := true), text)
    {
      hide ObserveSearch;
      searchResponseSeen := true;
      ObserveSearchUidsLocked(text);
    }

    method JudgeESearch(text: bytes)
      modifies this`searchIncomplete, this`searchOutOfWindow, this`searchDuplicate
      ensures Noted() == ObserveESearch(old(Noted()), text)
    {
      hide Walk, ObserveRanges;
      var report := ESearchAllOverlaps(text);
      RecordRanges(report.observed);
      if report.overlaps {
        searchDuplicate := true;
      }
      if !report.complete {
        searchIncomplete := true;
      }
    }

    /** Consumes the part of the running literal that has arrived; false when
        all that has arrived belongs to it. */
    method SkipLiteral() returns (more: bool)
      modifies this`searchBuffer, this`searchLiteralBytes
      ensures Framing() == Skip(old(Framing()))
      ensures !more ==> searchBuffer == []
    {
      if searchLiteralBytes > 0 {
        if |searchBuffer| <= searchLiteralBytes {
          searchLiteralBytes := searchLiteralBytes - |searchBuffer|;
          searchBuffer := [];
          return false;
        }
        searchBuffer := searchBuffer[searchLiteralBytes..];
        searchLiteralBytes := 0;
      }
      more := true;
    }

    /** The class of a line and the literal that ends it; a line that resumes
        a response other than a rejoined ESEARCH is data. */
    method ReadLine(line: bytes, pending: bytes) returns (kind: LineKind, rest: bytes, trailing: Trailing)
      ensures (kind, rest) == if !searchContinues || pending != [] then Classify(line) else (DataLine, [])
      ensures trailing == if kind == TextLine then NoLiteral else TrailingLiteral(line)
    {
      hide Classify, TrailingLiteral;
      kind, rest := DataLine, [];
      if !searchContinues || pending != [] {
        var classified := Classify(line);
        kind, rest := classified.0, classified.1;
      }
      trailing := NoLiteral;
      if kind != TextLine {
        trailing := TrailingImapLiteral(line);
      }
    }

    /** Records what the line says; an ESEARCH that goes on after a literal
        waits as pending text. */
    method JudgeLine(kind: LineKind, rest: bytes, line: bytes, trailing: Trailing)
      requires trailing.Literal? ==> trailing.opening <= |line|
      modifies this`searchPending, this`searchResponseSeen, this`eSearchResponseSeen,
               this`searchIncomplete, this`searchOutOfWindow, this`searchDuplicate, this`searchUids
      ensures var joins := kind == ESearchKind && trailing.Literal?;
              && Framing() == old(Framing()).(pending := if joins then line[..trailing.opening] + [QUOTE, QUOTE] else old(searchPending))
              && Noted() == Judge(old(Noted()), Line(kind == Unclassified, kind, rest, !joins))
    {
      hide ObserveSearch, ObserveESearch;
      if kind == Unclassified {
        searchIncomplete := true;
      } else if kind == SearchKind {
        JudgeSearch(rest);
      } else if kind == ESearchKind {
        eSearchResponseSeen := true;
        if trailing.Literal? {
          searchPending := line[..trailing.opening] + [QUOTE, QUOTE];
        } else {
          JudgeESearch(rest);
        }
      }
    }

    /** Takes the line that ends at end off the buffer, behind any pending text. */
    method CutLine(end: nat) returns (line: bytes, pending: bytes)
      requires end < |searchBuffer|
      modifies this`searchBuffer, this`searchPending, this`searchIncomplete
      ensures pending == old(searchPending) && line == pending + TrimSuffix(old(searchBuffer)[..end], CR)
      ensures Framing() == old(Framing()).(buffer := old(searchBuffer)[end + 1..], pending := [])
      ensures Noted() == old(Noted()).(incomplete := old(searchIncomplete) || CR in line)
    {
      hide TrimSuffix;
      pending := searchPending;
      line := pending + TrimSuffix(searchBuffer[..end], CR);
      searchBuffer := searchBuffer[end + 1..];
      searchPending := [];
      if CR in line {
        searchIncomplete := true;
      }
    }

    /** Notes what follows the line: the octets of its literal, if it has one. */
    method NoteTrailing(trailing: Trailing)
      modifies this`searchIncomplete, this`searchContinues, this`searchLiteralBytes
      ensures Framing() == old(Framing()).(continues := trailing.Literal?, literal := if trailing.Literal? then trailing.size else old(searchLiteralBytes))
      ensures Noted() == old(Noted()).(incomplete := old(searchIncomplete) || trailing.Unterminated?)
    {
      if trailing.Unterminated? {
        searchIncomplete := true;
      }
      searchContinues := trailing.Literal?;
      if trailing.Literal? {
        searchLiteralBytes := trailing.size;
      }
    }

    /** Takes one line off the buffer, reads it and notes what follows it. */
    method StartLine(end: nat) returns (line: bytes, kind: LineKind, rest: bytes, trailing: Trailing)
      requires end < |searchBuffer|
      modifies this`searchBuffer, this`searchLiteralBytes, this`searchContinues, this`searchPending, this`searchIncomplete
      ensures var f := old(Framing());
              && line == f.pending + TrimSuffix(f.buffer[..end], CR)
              && (kind, rest) == (if !f.continues || f.pending != [] then Classify(line) else (DataLine, []))
              && trailing == (if kind == TextLine then NoLiteral else TrailingLiteral(line))
              && Framing() == Framer(f.buffer[end + 1..], if trailing.Literal? then trailing.size else f.literal, trailing.Literal?, [])
      ensures Noted() == old(Noted()).(incomplete := (old(searchIncomplete) || CR in line) || trailing.Unterminated?)
    {
      hide Classify, TrailingLiteral, TrimSuffix;
      var pending;
      line, pending := CutLine(end);
      kind, rest, trailing := ReadLine(line, pending);
      NoteTrailing(trailing);
    }

    /** Takes one line off the buffer and judges it. */
    method ObserveLine(end: nat)
      requires searchLiteralBytes == 0 && end == Find(searchBuffer, LF) < |searchBuffer|
      modifies this`searchBuffer, this`searchLiteralBytes, this`searchContinues, this`searchPending,
               this`searchResponseSeen, this`eSearchResponseSeen,
               this`searchIncomplete, this`searchOutOfWindow, this`searchDuplicate, this`searchUids
      ensures var (next, line) := TakeLine(old(Framing()));
              Observed() == Observer(next, Judge(old(Noted()), line))
    {
      hide Find, Classify, TrailingLiteral, Judge, TrimSuffix, TakeLine, LineKindOf, FirstLine;
      ghost var before, noted := Framing(), Noted();
      var line, kind, rest, trailing := StartLine(end);
      LineIs(before, noted, line, kind, rest, trailing);
      JudgeLine(kind, rest, line, trailing);
    }

    /** Observes what one read delivered. */
    method ObserveSearchResponseLocked(input: bytes)
      modifies this`searchBuffer, this`searchLiteralBytes, this`searchContinues, this`searchPending,
               this`searchResponseSeen, this`eSearchResponseSeen,
               this`searchIncomplete, this`searchOutOfWindow, this`searchDuplicate, this`searchUids
      ensures Observed() == Observe(old(Observed()), input)
    {
      hide TakeLine, Judge, Skip, Find;
      ghost var before := Observed();
      searchBuffer := searchBuffer + input;
      while true
        invariant Settle(Observed()) == Observe(before, input)
        decreases |searchBuffer|
      {
        ghost var here := Observed();
        var more := SkipLiteral();
        SkipShrinks(here.framer);
        if !more {
          return;
        }
        var end := Find(searchBuffer, LF);
        if end == |searchBuffer| {
          return;
        }
        SettleLine(here);
        SkipDone(here.framer);
        ObserveLine(end);
      }
    }
  }

  /** The state one line leaves, in terms of the values read off it. */
  lemma LineIs(f: Framer, t: Tally, line: bytes, kind: LineKind, text: bytes, trailing: Trailing)
    requires LF in f.buffer && f.literal == 0
    requires line == f.pending + TrimSuffix(f.buffer[..Find(f.buffer, LF)], CR)
    requires (kind, text) == if !f.continues || f.pending != [] then Classify(line) else (DataLine, [])
    requires trailing == if kind == TextLine then NoLiteral else TrailingLiteral(line)
    ensures var joins := kind == ESearchKind && trailing.Literal?;
            && TakeLine(f).0 == Framer(f.buffer[Find(f.buffer, LF) + 1..], if trailing.Literal? then trailing.size else f.literal,
                                       trailing.Literal?, if joins then line[..trailing.opening] + [QUOTE, QUOTE] else [])
            && Judge(t, TakeLine(f).1)
               == Judge(t.(incomplete := (t.incomplete || CR in line) || trailing.Unterminated?), Line(kind == Unclassified, kind, text, !joins))
  {
    hide Find, Classify, TrailingLiteral, TrimSuffix, Judge;
    JudgeMarked(t, CR in line || trailing.Unterminated?, kind == Unclassified, kind, text, !(kind == ESearchKind && trailing.Literal?));
  }

  lemma JudgeMarked(t: Tally, early: bool, late: bool, kind: LineKind, text: bytes, whole: bool)
    ensures Judge(t.(incomplete := t.incomplete || early), Line(late, kind, text, whole)) == Judge(t, Line(early || late, kind, text, whole))
  {
  }

  lemma SkipDone(f: Framer)
    ensures Skip(f).literal == 0 || Skip(f).buffer == []
  {
  }
}
