/** Number sets of search responses: overlap by sorting and comparing
    neighbours, never by expanding ranges, and the bounded expansion of a
    decoded set (bridge/imapclient.go:1130-1163, 1739-1772). */
module SearchSets {
  import opened Octets
  import opened SearchWire

  ghost predicate Ordered(s: seq<Interval>) {
    forall i :: 0 <= i < |s| ==> s[i].start <= s[i].stop
  }

  ghost predicate SortedByStart(s: seq<Interval>) {
    forall i, j :: 0 <= i < j < |s| ==> s[i].start <= s[j].start
  }

  ghost predicate NeighboursTouch(s: seq<Interval>) {
    exists k :: 0 < k < |s| && s[k].start <= s[k - 1].stop
  }

  // ---- Sorting ----

  lemma TwoPlaces(s: seq<Interval>, x: Interval)
    requires multiset(s)[x] >= 2
    ensures exists p, q :: 0 <= p < q < |s| && s[p] == x && s[q] == x
  {
    assert x in s;
    var p := FirstPlace(s, x);
    assert s == s[..p] + [x] + s[p + 1..];
    assert multiset(s) == multiset(s[..p]) + multiset{x} + multiset(s[p + 1..]);
    assert x in s[p + 1..];
    var q :| 0 <= q < |s[p + 1..]| && s[p + 1..][q] == x;
    assert s[p + 1 + q] == x;
  }

  lemma {:induction false} FirstPlace(s: seq<Interval>, x: Interval) returns (p: nat)
    requires x in s
    ensures p < |s| && s[p] == x && x !in s[..p]
  {
    if s[0] == x {
      p := 0;
    } else {
      var q := FirstPlace(s[1..], x);
      p := q + 1;
      assert s[..p] == [s[0]] + s[1..][..q];
    }
  }

  /** Reordering intervals neither makes nor removes an overlap. */
  lemma OverlapPermutes(a: seq<Interval>, b: seq<Interval>)
    requires multiset(a) == multiset(b) && Overlapping(a)
    ensures Overlapping(b)
  {
    var i, j :| 0 <= i < j < |a| && Intersect(a[i], a[j]);
    var x, y := a[i], a[j];
    if x == y {
      assert a == a[..j] + [y] + a[j + 1..];
      assert x in a[..j] by { assert a[..j][i] == x; }
      assert multiset(a) == multiset(a[..j]) + multiset{y} + multiset(a[j + 1..]);
      TwoPlaces(b, x);
    } else {
      assert x in multiset(b) && y in multiset(b);
      var p :| 0 <= p < |b| && b[p] == x;
      var q :| 0 <= q < |b| && b[q] == y;
      if p < q {
        assert Intersect(b[p], b[q]);
      } else {
        assert Intersect(b[q], b[p]);
      }
    }
  }

  /** In any order by start, comparing neighbours finds every overlap. */
  lemma NeighboursDecide(s: seq<Interval>)
    requires Ordered(s) && SortedByStart(s)
    ensures NeighboursTouch(s) <==> Overlapping(s)
  {
    if k :| 0 < k < |s| && s[k].start <= s[k - 1].stop {
      assert Intersect(s[k - 1], s[k]);
    }
    if i, j :| 0 <= i < j < |s| && Intersect(s[i], s[j]) {
      assert s[i + 1].start <= s[j].start;
      assert 0 < i + 1 < |s| && s[i + 1].start <= s[i + 1 - 1].stop;
    }
  }

  lemma InsertedSorted(sorted: seq<Interval>, k: nat, x: Interval)
    requires SortedByStart(sorted) && k <= |sorted|
    requires k > 0 ==> sorted[k - 1].start <= x.start
    requires forall i :: k <= i < |sorted| ==> sorted[i].start > x.start
    ensures SortedByStart(sorted[..k] + [x] + sorted[k..])
  {
    var r := sorted[..k] + [x] + sorted[k..];
    forall i, j | 0 <= i < j < |r| ensures r[i].start <= r[j].start {
      assert r[i] == if i < k then sorted[i] else if i == k then x else sorted[i - 1];
      assert r[j] == if j < k then sorted[j] else if j == k then x else sorted[j - 1];
    }
  }

  lemma InsertedSame(sorted: seq<Interval>, k: nat, x: Interval)
    requires k <= |sorted|
    ensures multiset(sorted[..k] + [x] + sorted[k..]) == multiset(sorted) + multiset{x}
  {
    assert sorted == sorted[..k] + sorted[k..];
  }

  /** Moves an interval down to its place. */
  method InsertByStart(sorted: seq<Interval>, x: Interval) returns (r: seq<Interval>)
    requires SortedByStart(sorted)
    ensures SortedByStart(r) && multiset(r) == multiset(sorted) + multiset{x}
  {
    var k := |sorted|;
    while k > 0 && sorted[k - 1].start > x.start
      invariant 0 <= k <= |sorted|
      invariant forall i :: k <= i < |sorted| ==> sorted[i].start > x.start
    {
      k := k - 1;
    }
    r := sorted[..k] + [x] + sorted[k..];
    InsertedSorted(sorted, k, x);
    InsertedSame(sorted, k, x);
  }

  method SortByStart(s: seq<Interval>) returns (r: seq<Interval>)
    ensures SortedByStart(r) && multiset(r) == multiset(s)
  {
    r := [];
    for i := 0 to |s|
      invariant SortedByStart(r) && multiset(r) == multiset(s[..i])
    {
      assert s[..i + 1] == s[..i] + [s[i]];
      r := InsertByStart(r, s[i]);
    }
    assert s[..|s|] == s;
  }

  // ---- One set ----

  method ParseSet(items: seq<bytes>) returns (parsed: bool, intervals: seq<Interval>)
    ensures parsed <==> ItemsParse(items)
    ensures intervals == if parsed then Intervals(items) else []
  {
    hide ParseInterval;
    intervals := [];
    var i := 0;
    while i < |items|
      invariant i <= |items| && ItemsParse(items[..i]) && intervals == Intervals(items[..i])
    {
      var interval := ParseInterval(items[i]);
      if interval.None? {
        return false, [];
      }
      assert items[..i + 1] == items[..i] + [items[i]];
      IntervalsAppend(items[..i], items[i]);
      intervals := intervals + [interval.value];
      i := i + 1;
    }
    assert items[..i] == items;
    parsed := true;
  }

  method TouchingNeighbours(sorted: seq<Interval>) returns (touching: bool)
    ensures touching <==> NeighboursTouch(sorted)
  {
    var k := 1;
    while k < |sorted|
      invariant 1 <= k && forall j :: 0 < j < k && j < |sorted| ==> sorted[j].start > sorted[j - 1].stop
    {
      if sorted[k].start <= sorted[k - 1].stop {
        return true;
      }
      k := k + 1;
    }
    return false;
  }

  /** Whether a set names any number twice, and whether it parsed; the intervals
      passed to the observer are those of the set, and none when it did not
      parse. */
  method SequenceSetOverlaps(text: bytes) returns (overlaps: bool, parsed: bool, observed: seq<Interval>)
    ensures parsed <==> ItemsParse(Split(text, COMMA))
    ensures parsed ==> observed == Intervals(Split(text, COMMA)) && (overlaps <==> Overlapping(observed))
    ensures !parsed ==> observed == [] && !overlaps
  {
    hide ParseInterval;
    parsed, observed := ParseSet(Split(text, COMMA));
    if !parsed {
      return false, false, [];
    }
    var sorted := SortByStart(observed);
    OrderedPermutes(observed, sorted);
    NeighboursDecide(sorted);
    if Overlapping(observed) {
      OverlapPermutes(observed, sorted);
    }
    if Overlapping(sorted) {
      OverlapPermutes(sorted, observed);
    }
    overlaps := TouchingNeighbours(sorted);
  }

  lemma {:induction false} IntervalsAppend(items: seq<bytes>, item: bytes)
    requires ItemsParse(items) && ParseInterval(item).Some?
    ensures ItemsParse(items + [item]) && Intervals(items + [item]) == Intervals(items) + [ParseInterval(item).value]
    decreases |items|
  {
    hide ParseInterval;
    if items != [] {
      IntervalsAppend(items[1..], item);
      assert (items + [item])[1..] == items[1..] + [item];
    }
  }

  lemma OrderedPermutes(a: seq<Interval>, b: seq<Interval>)
    requires Ordered(a) && multiset(a) == multiset(b)
    ensures Ordered(b)
  {
    forall i | 0 <= i < |b| ensures b[i].start <= b[i].stop {
      assert b[i] in multiset(a);
    }
  }

  // ---- Bounded expansion ----

  datatype Window = Window(start: nat, end: nat)

  /** The number of UIDs a well-formed window spans. */
  function Width(w: Window): nat {
    if w.start == 0 || w.end < w.start then 0 else w.end - w.start + 1
  }

  datatype Refusal = ProtocolError | BoundsError

  datatype Expansion = Expanded(uids: seq<nat>) | Refused(why: Refusal)

  function Range(start: nat, stop: nat): (r: seq<nat>)
    requires start <= stop
    ensures |r| == stop - start + 1 && forall i :: 0 <= i < |r| ==> r[i] == start + i
  {
    seq(stop - start + 1, i requires 0 <= i => start + i)
  }

  function ExpandAll(ranges: seq<Interval>): seq<nat>
    requires Ordered(ranges)
  {
    if ranges == [] then []
    else ExpandAll(ranges[..|ranges| - 1]) + Range(ranges[|ranges| - 1].start, ranges[|ranges| - 1].stop)
  }

  ghost predicate Inside(ranges: seq<Interval>, window: Window) {
    forall i :: 0 <= i < |ranges| ==> 0 < ranges[i].start && window.start <= ranges[i].start && ranges[i].stop <= window.end
  }

  lemma {:induction false} ExpandHolds(ranges: seq<Interval>, n: nat)
    requires Ordered(ranges)
    ensures n in ExpandAll(ranges) <==> exists i :: 0 <= i < |ranges| && Contains(ranges[i], n)
    decreases |ranges|
  {
    if ranges != [] {
      var init, last := ranges[..|ranges| - 1], ranges[|ranges| - 1];
      ExpandHolds(init, n);
      var r := Range(last.start, last.stop);
      if Contains(last, n) {
        assert r[n - last.start] == n;
      }
      if n in ExpandAll(init) {
        var i :| 0 <= i < |init| && Contains(init[i], n);
        assert ranges[i] == init[i];
      }
      if i :| 0 <= i < |ranges| && Contains(ranges[i], n) {
        if i < |init| {
          assert Contains(init[i], n);
        }
      }
    }
  }

  /** Adds every UID of one range unless one was seen before. */
  method AddRange(item: Interval, seen: set<nat>, results: seq<nat>) returns (ok: bool, seen': set<nat>, results': seq<nat>)
    requires item.start <= item.stop && forall n :: n in seen <==> n in results
    ensures ok <==> forall n :: item.start <= n <= item.stop ==> n !in results
    ensures ok ==> results' == results + Range(item.start, item.stop) && forall n :: n in seen' <==> n in results'
  {
    seen', results' := seen, results;
    var uid := item.start;
    ghost var range := Range(item.start, item.stop);
    while uid <= item.stop
      invariant item.start <= uid <= item.stop + 1
      invariant results' == results + range[..uid - item.start]
      invariant forall n :: n in seen' <==> n in results'
      invariant forall n :: item.start <= n < uid ==> n !in results
    {
      if uid in seen' {
        assert uid !in range[..uid - item.start];
        return false, seen', results';
      }
      assert range[..uid + 1 - item.start] == range[..uid - item.start] + [uid];
      seen' := seen' + {uid};
      results' := results' + [uid];
      uid := uid + 1;
    }
    assert range[..uid - item.start] == range;
    ok := true;
  }

  /** The UIDs of a decoded set, refused unless every range is nonzero and
      inside the window, no UID repeats, and all fit the limit. */
  method BoundedSearchUids(ranges: seq<Interval>, window: Window, limit: nat) returns (r: Expansion)
    requires Ordered(ranges)
    ensures r.Expanded? <==> Inside(ranges, window) && !Overlapping(ranges) && |ExpandAll(ranges)| <= limit
    ensures r.Expanded? ==> r.uids == ExpandAll(ranges)
    ensures r == Refused(ProtocolError) ==> Overlapping(ranges) || !Inside(ranges, window)
  {
    hide Range;
    var results: seq<nat> := [];
    var seen: set<nat> := {};
    var i := 0;
    assert ranges[..0] == [];
    while i < |ranges|
      invariant i <= |ranges| && Inside(ranges[..i], window) && !Overlapping(ranges[..i])
      invariant results == ExpandAll(ranges[..i]) && |results| <= limit
      invariant forall n :: n in seen <==> n in results
    {
      var item := ranges[i];
      assert ranges[..i + 1][..i] == ranges[..i];
      ExpandPrefix(ranges, i + 1);
      if item.start == 0 || item.stop == 0 {
        return Refused(ProtocolError);
      }
      if item.start < window.start || item.stop > window.end {
        return Refused(BoundsError);
      }
      if item.stop - item.start + 1 > limit - |results| {
        return Refused(BoundsError);
      }
      var ok, seen', results' := AddRange(item, seen, results);
      if !ok {
        var uid: nat :| item.start <= uid <= item.stop && uid in results;
        RepeatOverlaps(ranges, i, uid);
        return Refused(ProtocolError);
      }
      NoRepeatNoOverlap(ranges, i, results);
      seen, results := seen', results';
      i := i + 1;
    }
    assert ranges[..i] == ranges;
    r := Expanded(results);
  }

  lemma ExpandPrefix(ranges: seq<Interval>, k: nat)
    requires Ordered(ranges) && k <= |ranges|
    ensures |ExpandAll(ranges[..k])| <= |ExpandAll(ranges)|
    decreases |ranges| - k
  {
    if k < |ranges| {
      ExpandPrefix(ranges, k + 1);
      assert ranges[..k + 1][..k] == ranges[..k];
    } else {
      assert ranges[..k] == ranges;
    }
  }

  lemma RepeatOverlaps(ranges: seq<Interval>, i: nat, uid: nat)
    requires Ordered(ranges) && i < |ranges| && Contains(ranges[i], uid) && uid in ExpandAll(ranges[..i])
    ensures Overlapping(ranges)
  {
    ExpandHolds(ranges[..i], uid);
    var j :| 0 <= j < i && Contains(ranges[..i][j], uid);
    assert Intersect(ranges[j], ranges[i]);
  }

  lemma NoRepeatNoOverlap(ranges: seq<Interval>, i: nat, before: seq<nat>)
    requires Ordered(ranges) && i < |ranges| && before == ExpandAll(ranges[..i]) && !Overlapping(ranges[..i])
    requires forall n :: ranges[i].start <= n <= ranges[i].stop ==> n !in before
    ensures !Overlapping(ranges[..i + 1])
  {
    var init, upto := ranges[..i], ranges[..i + 1];
    forall j, k | 0 <= j < k < |upto| ensures !Intersect(upto[j], upto[k]) {
      if k < i {
        assert init[j] == upto[j] && init[k] == upto[k];
      } else {
        var n := if upto[j].start < upto[k].start then upto[k].start else upto[j].start;
        if Contains(upto[k], n) {
          ExpandHolds(init, n);
          assert !Contains(init[j], n);
        }
      }
    }
  }
}
