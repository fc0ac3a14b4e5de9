/** One ESEARCH line, walked as name-value pairs (bridge/imapclient.go:
    1630-1725, 1774-1790). */
module SearchESearch {
  import opened Octets
  import opened Sequences
  import opened Wrappers
  import opened QuarantineLexis
  import opened SearchWire
  import opened SearchSets

  /** The end of a quoted string or parenthesized list that input starts with. */
  function ValueEnd(input: bytes, index: nat, depth: int, quoted: bool): (end: Option<nat>)
    requires index <= |input| + 1
    ensures end.Some? ==> index < end.value <= |input|
    decreases |input| + 1 - index
  {
    if index >= |input| then None
    else if quoted && input[index] == BACKSLASH then ValueEnd(input, if index + 2 <= |input| then index + 2 else |input| + 1, depth, quoted)
    else if input[index] == QUOTE then
      if quoted && depth == 0 then Some(index + 1) else ValueEnd(input, index + 1, depth, !quoted)
    else if quoted then ValueEnd(input, index + 1, depth, quoted)
    else if input[index] == LPAREN then ValueEnd(input, index + 1, depth + 1, quoted)
    else if input[index] == RPAREN then
      if depth == 1 then Some(index + 1) else ValueEnd(input, index + 1, depth - 1, quoted)
    else ValueEnd(input, index + 1, depth, quoted)
  }

  /** Splits one return value, empty when none is well formed. */
  function Value(input: bytes): (r: (bytes, bytes))
    ensures input == r.0 + r.1
  {
    if input == [] || (input[0] != QUOTE && input[0] != LPAREN) then SpanAtom(input)
    else
      match ValueEnd(input, 0, 0, false)
      case None => ([], input)
      case Some(end) => (input[..end], input[end..])
  }

  /** The scan for the end of the leading return value. */
  method ESearchValue(input: bytes) returns (value: bytes, rest: bytes)
    ensures (value, rest) == Value(input)
  {
    hide WireAtomChar, SpanAtom;
    if input == [] || (input[0] != QUOTE && input[0] != LPAREN) {
      value, rest := ESearchAtom(input);
      return;
    }
    var depth, quoted, index := 0, false, 0;
    while index < |input|
      invariant 0 <= index <= |input| + 1
      invariant ValueEnd(input, index, depth, quoted) == ValueEnd(input, 0, 0, false)
    {
      if quoted && input[index] == BACKSLASH {
        index := index + 1;
      } else if input[index] == QUOTE {
        quoted := !quoted;
        if !quoted && depth == 0 {
          return input[..index + 1], input[index + 1..];
        }
      } else if quoted {
      } else if input[index] == LPAREN {
        depth := depth + 1;
      } else if input[index] == RPAREN {
        depth := depth - 1;
        if depth == 0 {
          return input[..index + 1], input[index + 1..];
        }
      }
      index := index + 1;
    }
    return [], input;
  }

  /** The parenthesis that closes the correlator, quoted strings aside. */
  function CorrelatorEnd(rest: bytes, index: nat, quoted: bool): (end: Option<nat>)
    requires index <= |rest| + 1
    ensures end.Some? ==> end.value < |rest|
    decreases |rest| + 1 - index
  {
    if index >= |rest| then None
    else if quoted && rest[index] == BACKSLASH then CorrelatorEnd(rest, if index + 2 <= |rest| then index + 2 else |rest| + 1, quoted)
    else if rest[index] == QUOTE then CorrelatorEnd(rest, index + 1, !quoted)
    else if !quoted && rest[index] == RPAREN then Some(index)
    else CorrelatorEnd(rest, index + 1, quoted)
  }

  /** The scan for that parenthesis. */
  method FindCorrelatorEnd(rest: bytes) returns (end: Option<nat>)
    requires rest != []
    ensures end == CorrelatorEnd(rest, 1, false)
  {
    var quoted, index := false, 1;
    while index < |rest|
      invariant 1 <= index <= |rest| + 1
      invariant CorrelatorEnd(rest, index, quoted) == CorrelatorEnd(rest, 1, false)
    {
      if quoted && rest[index] == BACKSLASH {
        index := index + 1;
      } else if rest[index] == QUOTE {
        quoted := !quoted;
      } else if !quoted && rest[index] == RPAREN {
        return Some(index);
      }
      index := index + 1;
    }
    return None;
  }

  /** The first return name and the text after it, past the correlator and the
      UID marker. */
  function Beginning(text: bytes): Option<(bytes, bytes)> {
    var rest := TrimRight(TrimLeft(text));
    var closing := if rest != [] && rest[0] == LPAREN then CorrelatorEnd(rest, 1, false) else None;
    if rest != [] && rest[0] == LPAREN && closing.None? then None
    else
      var named := SpanAtom(if closing.Some? then TrimPrefix(rest[closing.value + 1..], SP) else rest);
      Some(if named.0 == UID then SpanAtom(TrimPrefix(named.1, SP)) else named)
  }

  datatype Pair = Pair(name: bytes, value: bytes)

  /** The name-value pairs of a line whose walk consumes it all. */
  function Pairs(name: bytes, rest: bytes): Option<seq<Pair>>
    decreases |rest|
  {
    if name == [] then (if rest == [] then Some([]) else None)
    else if rest == [] || rest[0] != SP then None
    else
      var (value, after) := Value(rest[1..]);
      if value == [] then None
      else if after == [] then Some([Pair(name, value)])
      else if after[0] != SP then None
      else
        var next := SpanAtom(after[1..]);
        assert |after| < |rest|;
        match Pairs(next.0, next.1)
        case None => None
        case Some(pairs) => Some([Pair(name, value)] + pairs)
  }

  predicate IsAll(p: Pair) {
    FoldIs(p.name, ALL)
  }

  /** A top-level ALL set that parses and names no number twice. */
  ghost predicate CleanSet(value: bytes) {
    var items := Split(value, COMMA);
    ItemsParse(items) && !Overlapping(Intervals(items))
  }

  ghost predicate CleanPair(p: Pair) {
    IsAll(p) ==> CleanSet(p.value)
  }

  ghost predicate CleanPairs(pairs: seq<Pair>) {
    forall p :: p in pairs ==> CleanPair(p)
  }

  /** The line is wholly consumed and every ALL set of it is clean. */
  ghost predicate CleanLine(text: bytes) {
    var start := Beginning(text);
    && start.Some?
    && var pairs := Pairs(start.value.0, start.value.1);
       pairs.Some? && CleanPairs(pairs.value)
  }

  ghost function SetIntervals(p: Pair): seq<Interval>
    requires CleanPair(p)
  {
    if IsAll(p) then Intervals(Split(p.value, COMMA)) else []
  }

  /** The intervals of every ALL set of a clean line. */
  ghost function AllIntervals(pairs: seq<Pair>): seq<Interval>
    requires CleanPairs(pairs)
  {
    if pairs == [] then []
    else
      assert pairs[0] in pairs;
      SetIntervals(pairs[0]) + AllIntervals(pairs[1..])
  }

  ghost function LineIntervals(text: bytes): seq<Interval>
    requires CleanLine(text)
  {
    var start := Beginning(text).value;
    AllIntervals(Pairs(start.0, start.1).value)
  }

  /** What the walk of a line reports: an overlap, complete consumption, and
      the intervals it passed to the observer. */
  datatype Report = Report(overlaps: bool, complete: bool, observed: seq<Interval>)

  ghost function WalkFrom(name: bytes, rest: bytes, observed: seq<Interval>): Report
    decreases |rest|
  {
    if name == [] then Report(false, rest == [], observed)
    else if rest == [] || rest[0] != SP then Report(false, false, observed)
    else
      var (value, after) := Value(rest[1..]);
      var items := Split(value, COMMA);
      var all := IsAll(Pair(name, value));
      if value == [] then Report(false, false, observed)
      else if all && !ItemsParse(items) then Report(false, false, observed)
      else
        var seen := if all then observed + Intervals(items) else observed;
        if all && Overlapping(Intervals(items)) then Report(true, true, seen)
        else if after == [] then Report(false, true, seen)
        else if after[0] != SP then Report(false, false, seen)
        else
          var next := SpanAtom(after[1..]);
          assert |after| < |rest|;
          WalkFrom(next.0, next.1, seen)
  }

  ghost function Walk(text: bytes): Report {
    var start := Beginning(text);
    if start.None? then Report(false, false, []) else WalkFrom(start.value.0, start.value.1, [])
  }

  lemma Cons(pair: Pair, later: seq<Pair>)
    ensures CleanPairs([pair] + later) <==> CleanPair(pair) && CleanPairs(later)
    ensures CleanPairs([pair] + later) ==> AllIntervals([pair] + later) == SetIntervals(pair) + AllIntervals(later)
  {
    hide CleanPair, SetIntervals;
    var pairs := [pair] + later;
    assert pairs[1..] == later;
    assert forall p :: p in pairs <==> p == pair || p in later;
  }

  /** The walk of one pair, in the terms of the pairs of the line. */
  lemma WalkPair(name: bytes, rest: bytes, observed: seq<Interval>)
    requires name != [] && rest != [] && rest[0] == SP && Value(rest[1..]).0 != []
    ensures var (value, after) := Value(rest[1..]);
            var pair := Pair(name, value);
            if !CleanPair(pair) then !WalkFrom(name, rest, observed).complete || WalkFrom(name, rest, observed).overlaps
            else if after == [] then WalkFrom(name, rest, observed) == Report(false, true, observed + SetIntervals(pair))
            else if after[0] != SP then !WalkFrom(name, rest, observed).complete
            else var next := SpanAtom(after[1..]);
                 WalkFrom(name, rest, observed) == WalkFrom(next.0, next.1, observed + SetIntervals(pair))
  {
    hide Value, IsAll, ParseInterval, Split, Overlapping, SpanAtom;
    assert observed + [] == observed;
  }

  lemma {:induction false} WalkFromIs(name: bytes, rest: bytes, observed: seq<Interval>)
    ensures var r, pairs := WalkFrom(name, rest, observed), Pairs(name, rest);
            && (r.complete && !r.overlaps <==> pairs.Some? && CleanPairs(pairs.value))
            && (r.complete && !r.overlaps ==> r.observed == observed + AllIntervals(pairs.value))
    decreases |rest|
  {
    hide Value, CleanPair, SetIntervals, SpanAtom, IsAll, ItemsParse, Intervals, Overlapping, Split;
    if name == [] {
      assert observed + [] == observed;
    } else if rest != [] && rest[0] == SP && Value(rest[1..]).0 != [] {
      hide WalkFrom;
      var (value, after) := Value(rest[1..]);
      var pair := Pair(name, value);
      WalkPair(name, rest, observed);
      if after == [] {
        Cons(pair, []);
        assert [pair] + [] == [pair];
        if CleanPair(pair) {
          assert SetIntervals(pair) + [] == SetIntervals(pair);
        }
      } else if after[0] == SP {
        var next := SpanAtom(after[1..]);
        if Pairs(next.0, next.1).Some? {
          Cons(pair, Pairs(next.0, next.1).value);
        }
        if CleanPair(pair) {
          WalkFromIs(next.0, next.1, observed + SetIntervals(pair));
          if Pairs(next.0, next.1).Some? && CleanPairs(Pairs(next.0, next.1).value) {
            Assoc(observed, SetIntervals(pair), AllIntervals(Pairs(next.0, next.1).value));
          }
        }
      }
    }
  }

  /** The walk accepts exactly the clean lines, having shown the observer every
      interval of every ALL set. */
  lemma WalkIs(text: bytes)
    ensures var r := Walk(text);
            && (r.complete && !r.overlaps <==> CleanLine(text))
            && (CleanLine(text) ==> r.observed == LineIntervals(text))
  {
    hide Pairs, WalkFrom, AllIntervals, CleanPairs;
    var start := Beginning(text);
    if start.Some? {
      WalkFromIs(start.value.0, start.value.1, []);
      if CleanLine(text) {
        assert [] + LineIntervals(text) == LineIntervals(text);
      }
    }
  }

  /** The walk itself, pair by pair. */
  method ESearchAllOverlaps(text: bytes) returns (r: Report)
    ensures r == Walk(text)
  {
    hide ParseInterval, Split, Value, IsAll, Overlapping, SpanAtom, CorrelatorEnd, WalkFrom, TrimLeft, TrimRight, TrimPrefix;
    var line := TrimRight(TrimLeft(text));
    if line != [] && line[0] == LPAREN {
      var closing := FindCorrelatorEnd(line);
      if closing.None? {
        return Report(false, false, []);
      }
      line := TrimPrefix(line[closing.value + 1..], SP);
    }
    var name, rest := ESearchAtom(line);
    if name == UID {
      name, rest := ESearchAtom(TrimPrefix(rest, SP));
    }
    assert Beginning(text) == Some((name, rest));
    r := WalkPairs(name, rest);
  }

  /** The loop over the pairs. */
  method WalkPairs(first: bytes, tail: bytes) returns (r: Report)
    ensures r == WalkFrom(first, tail, [])
  {
    hide ParseInterval, Split, Value, IsAll, Overlapping, SpanAtom;
    var name, rest, observed := first, tail, [];
    while name != []
      invariant WalkFrom(name, rest, observed) == WalkFrom(first, tail, [])
      decreases |rest|
    {
      if rest == [] || rest[0] != SP {
        return Report(false, false, observed);
      }
      var value, after := ESearchValue(rest[1..]);
      if value == [] {
        return Report(false, false, observed);
      }
      if IsAll(Pair(name, value)) {
        var overlaps, parsed, intervals := SequenceSetOverlaps(value);
        if !parsed {
          return Report(false, false, observed);
        }
        observed := observed + intervals;
        if overlaps {
          return Report(true, true, observed);
        }
      }
      if after == [] {
        return Report(false, true, observed);
      }
      if after[0] != SP {
        return Report(false, false, observed);
      }
      name, rest := ESearchAtom(after[1..]);
    }
    r := Report(false, rest == [], observed);
  }
}
