/** Searching a mailbox downward in windows of UIDs (bridge/search.go:133-241,
    bridge/imapclient.go:735-761). */
module SearchPages {
  import opened Sequences
  import opened Wrappers
  import opened SearchSets

  const WINDOW_WIDTH: nat := 100
  const MAX_WINDOWS: nat := 8

  // ---- Windows ----

  /** The window below remaining. */
  function Below(remaining: nat): Window
    requires remaining > 1
  {
    Window(if remaining > WINDOW_WIDTH then remaining - WINDOW_WIDTH else 1, remaining - 1)
  }

  /** All windows below remaining, from the top. */
  function Windows(remaining: nat): seq<Window> {
    if remaining <= 1 then [] else [Below(remaining)] + Windows(Below(remaining).start)
  }

  predicate Covers(w: Window, n: nat) {
    w.start <= n <= w.end
  }

  /** From one window to the next nothing is skipped or searched twice. */
  ghost predicate Adjoining(ws: seq<Window>) {
    forall i :: 0 < i < |ws| ==> ws[i].end == ws[i - 1].start - 1
  }

  ghost predicate Narrow(ws: seq<Window>, remaining: nat) {
    forall i :: 0 <= i < |ws| ==> 1 <= ws[i].start <= ws[i].end < remaining && 1 <= Width(ws[i]) <= WINDOW_WIDTH
  }

  /** The windows lie in [1, remaining), none wider than the limit, from its top
      down to 1, each right below the one before. */
  lemma {:induction false} WindowsAdjoin(remaining: nat)
    requires 1 < remaining
    ensures var ws := Windows(remaining);
            Narrow(ws, remaining) && Adjoining(ws) && ws != [] && ws[0].end == remaining - 1 && ws[|ws| - 1].start == 1
    decreases remaining
  {
    hide Width, Narrow, Adjoining;
    var w := Below(remaining);
    var rest := Windows(w.start);
    if w.start > 1 {
      WindowsAdjoin(w.start);
    } else {
      NoWindows(w.start);
    }
    WindowNarrow(w, rest, remaining);
    WindowAdjoins(w, rest);
  }

  lemma NoWindows(remaining: nat)
    ensures Narrow([], remaining) && Adjoining([])
  {
  }

  lemma WindowNarrow(w: Window, rest: seq<Window>, remaining: nat)
    requires remaining > 1 && w == Below(remaining) && Narrow(rest, w.start)
    ensures Narrow([w] + rest, remaining)
  {
    var ws := [w] + rest;
    assert forall i :: 0 < i < |ws| ==> ws[i] == rest[i - 1];
  }

  lemma WindowAdjoins(w: Window, rest: seq<Window>)
    requires Adjoining(rest) && (rest != [] ==> rest[0].end == w.start - 1)
    ensures Adjoining([w] + rest)
  {
    var ws := [w] + rest;
    forall i | 0 < i < |ws| ensures ws[i].end == ws[i - 1].start - 1 {
      assert ws[i] == rest[i - 1] && (i > 1 ==> ws[i - 1] == rest[i - 2]);
    }
  }

  /** The number of windows that cover n. */
  function Coverings(ws: seq<Window>, n: nat): nat {
    if ws == [] then 0 else (if Covers(ws[0], n) then 1 else 0) + Coverings(ws[1..], n)
  }

  /** Every UID below UIDNEXT is searched in exactly one window, and no other
      number in any. */
  lemma {:induction false} WindowsTile(remaining: nat, n: nat)
    ensures Coverings(Windows(remaining), n) == if 1 <= n < remaining then 1 else 0
    decreases remaining
  {
    if remaining > 1 {
      var w := Below(remaining);
      WindowsTile(w.start, n);
      assert ([w] + Windows(w.start))[1..] == Windows(w.start);
    }
  }

  // ---- Selecting the highest ----

  ghost predicate Descending(s: seq<nat>) {
    forall i, j :: 0 <= i < j < |s| ==> s[i] >= s[j]
  }

  ghost predicate StrictlyDescending(s: seq<nat>) {
    forall i, j :: 0 <= i < j < |s| ==> s[i] > s[j]
  }

  function InsertDown(s: seq<nat>, x: nat): seq<nat> {
    if s == [] || x >= s[0] then [x] + s else [s[0]] + InsertDown(s[1..], x)
  }

  function SortedDown(s: seq<nat>): seq<nat> {
    if s == [] then [] else InsertDown(SortedDown(s[1..]), s[0])
  }

  lemma {:induction false} InsertDownSame(s: seq<nat>, x: nat)
    ensures multiset(InsertDown(s, x)) == multiset(s) + multiset{x}
    decreases |s|
  {
    if s != [] && x < s[0] {
      InsertDownSame(s[1..], x);
      assert s == [s[0]] + s[1..];
    }
  }

  lemma {:induction false} InsertDownIs(s: seq<nat>, x: nat)
    requires Descending(s)
    ensures Descending(InsertDown(s, x)) && multiset(InsertDown(s, x)) == multiset(s) + multiset{x}
    decreases |s|
  {
    InsertDownSame(s, x);
    if s != [] && x < s[0] {
      var tail := s[1..];
      InsertDownIs(tail, x);
      var rest := InsertDown(tail, x);
      hide InsertDown;
      forall i | 0 <= i < |rest| ensures s[0] >= rest[i] {
        assert rest[i] in multiset(tail) + multiset{x} by {
          assert rest[i] in multiset(rest);
        }
        if rest[i] != x {
          var k :| 0 <= k < |tail| && tail[k] == rest[i];
          assert s[k + 1] == rest[i];
        }
      }
      DescendingCons(s[0], rest);
    }
  }

  lemma DescendingCons(x: nat, s: seq<nat>)
    requires Descending(s) && forall i :: 0 <= i < |s| ==> x >= s[i]
    ensures Descending([x] + s)
  {
  }

  lemma {:induction false} SortedDownIs(s: seq<nat>)
    ensures Descending(SortedDown(s)) && multiset(SortedDown(s)) == multiset(s)
    decreases |s|
  {
    hide InsertDown;
    if s != [] {
      SortedDownIs(s[1..]);
      InsertDownIs(SortedDown(s[1..]), s[0]);
      assert s == [s[0]] + s[1..];
    }
  }

  /** The answer is one a well-behaved server may give for the window. */
  ghost predicate WellFormed(uids: seq<nat>, w: Window) {
    && |uids| <= Width(w)
    && (forall i :: 0 <= i < |uids| ==> uids[i] != 0 && w.start <= uids[i] <= w.end)
    && Distinct(uids)
  }

  lemma SameElements(s: seq<nat>, r: seq<nat>)
    requires multiset(r) == multiset(s)
    ensures |r| == |s| && forall n :: n in r <==> n in s
  {
    assert |multiset(r)| == |r| && |multiset(s)| == |s|;
    forall n ensures n in r <==> n in s {
      assert n in multiset(r) <==> n in multiset(s);
    }
  }

  lemma TwiceIsTwice(s: seq<nat>, i: nat, j: nat)
    requires i < j < |s| && s[i] == s[j]
    ensures multiset(s)[s[i]] >= 2
  {
    assert s == s[..j] + [s[j]] + s[j + 1..];
    assert s[..j][i] == s[i];
    assert multiset(s) == multiset(s[..j]) + multiset{s[j]} + multiset(s[j + 1..]);
  }

  lemma {:induction false} OnceEach(s: seq<nat>, n: nat)
    requires Distinct(s)
    ensures multiset(s)[n] <= 1
    decreases |s|
  {
    if s != [] {
      var tail := s[1..];
      assert forall i :: 0 <= i < |tail| ==> tail[i] == s[i + 1];
      OnceEach(tail, n);
      assert s == [s[0]] + tail;
      if n == s[0] {
        assert n !in tail;
      }
    }
  }

  lemma DistinctPermutes(s: seq<nat>, r: seq<nat>)
    requires multiset(r) == multiset(s) && Distinct(s)
    ensures Distinct(r)
  {
    forall i, j | 0 <= i < j < |r| ensures r[i] != r[j] {
      OnceEach(s, r[i]);
      if r[i] == r[j] {
        TwiceIsTwice(r, i, j);
      }
    }
  }

  lemma SortedWellFormed(uids: seq<nat>, sorted: seq<nat>, window: Window)
    requires multiset(sorted) == multiset(uids) && Descending(sorted) && |uids| <= Width(window)
    requires forall i :: 0 <= i < |sorted| ==> sorted[i] != 0 && window.start <= sorted[i] <= window.end
    requires forall i :: 0 < i < |sorted| ==> sorted[i - 1] != sorted[i]
    ensures WellFormed(uids, window) && StrictlyDescending(sorted)
  {
    SameElements(uids, sorted);
    NeighboursDiffer(sorted);
    DistinctPermutes(sorted, uids);
    forall i | 0 <= i < |uids| ensures uids[i] != 0 && window.start <= uids[i] <= window.end {
      assert uids[i] in sorted;
    }
  }

  /** Refuses a malformed answer whole, else keeps its highest UIDs in order. */
  method SelectHighestUids(uids: seq<nat>, window: Window, budget: nat) returns (selected: Option<seq<nat>>)
    ensures selected.Some? <==> WellFormed(uids, window)
    ensures selected.Some? ==>
              && StrictlyDescending(selected.value) && |selected.value| == (if |uids| < budget then |uids| else budget)
              && (forall n :: n in selected.value ==> n in uids)
              && (forall n, k :: n in uids && n !in selected.value && 0 <= k < |selected.value| ==> selected.value[k] > n)
  {
    hide SortedDown;
    if |uids| > Width(window) {
      return None;
    }
    var sorted := SortedDown(uids);
    SortedDownIs(uids);
    SameElements(uids, sorted);
    for index := 0 to |sorted|
      invariant forall i :: 0 <= i < index ==> sorted[i] != 0 && window.start <= sorted[i] <= window.end
      invariant forall i :: 0 < i < index ==> sorted[i - 1] != sorted[i]
    {
      var uid := sorted[index];
      if uid == 0 || uid < window.start || uid > window.end {
        assert uid in uids;
        return None;
      }
      if index > 0 && sorted[index - 1] == uid {
        if Distinct(uids) {
          DistinctPermutes(uids, sorted);
        }
        return None;
      }
    }
    SortedWellFormed(uids, sorted, window);
    selected := Some(if |sorted| > budget then sorted[..budget] else sorted);
  }

  lemma NeighboursDiffer(s: seq<nat>)
    requires Descending(s) && forall i :: 0 < i < |s| ==> s[i - 1] != s[i]
    ensures StrictlyDescending(s) && Distinct(s)
  {
    forall i, j | 0 <= i < j < |s| ensures s[i] > s[j] {
      assert s[j - 1] != s[j] && s[j - 1] >= s[j];
      assert i < j - 1 ==> s[i] >= s[j - 1];
    }
  }

  /** The fetched metadata is for exactly the requested UIDs, each once. */
  method ValidateFetchedUids(requested: seq<nat>, results: seq<nat>) returns (ok: bool)
    ensures ok <==> Distinct(requested) && 0 !in requested && multiset(results) == multiset(requested)
  {
    if |results| != |requested| {
      assert |multiset(results)| == |results| && |multiset(requested)| == |requested|;
      return false;
    }
    var remaining: set<nat> := {};
    for i := 0 to |requested|
      invariant Distinct(requested[..i]) && 0 !in requested[..i] && forall n :: n in remaining <==> n in requested[..i]
    {
      assert requested[..i + 1] == requested[..i] + [requested[i]];
      if requested[i] == 0 {
        return false;
      }
      if requested[i] in remaining {
        var j :| 0 <= j < i && requested[..i][j] == requested[i];
        assert requested[j] == requested[i];
        return false;
      }
      remaining := remaining + {requested[i]};
    }
    assert requested[..|requested|] == requested;
    ghost var left := multiset(requested);
    forall n ensures left[n] == if n in remaining then 1 else 0 {
      OnceEach(requested, n);
      assert n in left <==> n in requested;
    }
    for i := 0 to |results|
      invariant left + multiset(results[..i]) == multiset(requested)
      invariant forall n :: left[n] == if n in remaining then 1 else 0
    {
      assert results[..i + 1] == results[..i] + [results[i]];
      if results[i] !in remaining {
        OneTooMany(left, results, i, requested);
        return false;
      }
      remaining := remaining - {results[i]};
      left := left - multiset{results[i]};
    }
    assert results[..|results|] == results;
    NothingLeft(left, results, requested);
    ok := true;
  }

  lemma OneTooMany(left: multiset<nat>, results: seq<nat>, i: nat, requested: seq<nat>)
    requires i < |results| && left + multiset(results[..i]) == multiset(requested) && left[results[i]] == 0
    ensures multiset(results) != multiset(requested)
  {
    assert results == results[..i] + [results[i]] + results[i + 1..];
    assert multiset(results)[results[i]] > multiset(requested)[results[i]];
  }

  lemma NothingLeft(left: multiset<nat>, results: seq<nat>, requested: seq<nat>)
    requires left + multiset(results) == multiset(requested) && |results| == |requested|
    ensures multiset(results) == multiset(requested)
  {
    assert |left + multiset(results)| == |left| + |multiset(results)|;
    assert |multiset(results)| == |results| && |multiset(requested)| == |requested|;
    assert left == multiset{};
  }
}
