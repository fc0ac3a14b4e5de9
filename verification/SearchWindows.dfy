/** The page of a mailbox search: windows from the top, the highest matches
    first, within a count and an output budget (bridge/search.go:133-216). */
module SearchWindows {
  import opened Octets
  import opened Sequences
  import opened Wrappers
  import opened SearchSets
  import opened SearchPages

  // ---- The output budget ----

  /** The elements of a JSON array, separated by commas. */
  function Joined(items: seq<bytes>): bytes {
    if items == [] then []
    else if |items| == 1 then items[0]
    else Joined(items[..|items| - 1]) + [COMMA] + items[|items| - 1]
  }

  function EncodedArray(items: seq<bytes>): bytes {
    [LBRACKET] + Joined(items) + [RBRACKET]
  }

  lemma ArrayMore(items: seq<bytes>, item: bytes)
    ensures |EncodedArray(items + [item])| == |EncodedArray(items)| + |item| + if items == [] then 0 else 1
  {
    var more := items + [item];
    assert more[..|more| - 1] == items && more[|more| - 1] == item;
  }

  lemma {:induction false} ArrayGrows(items: seq<bytes>, more: seq<bytes>)
    ensures |EncodedArray(items)| <= |EncodedArray(items + more)|
    decreases |more|
  {
    hide EncodedArray;
    if more == [] {
      assert items + more == items;
    } else {
      var init, last := more[..|more| - 1], more[|more| - 1];
      ArrayGrows(items, init);
      ArrayMore(items + init, last);
      assert items + more == items + init + [last];
    }
  }

  ghost predicate AllEncode(encode: nat -> Option<bytes>, uids: seq<nat>) {
    forall i :: 0 <= i < |uids| ==> encode(uids[i]).Some?
  }

  function Encoded(encode: nat -> Option<bytes>, uids: seq<nat>): (r: seq<bytes>)
    requires AllEncode(encode, uids)
    ensures |r| == |uids| && forall i :: 0 <= i < |r| ==> r[i] == encode(uids[i]).value
  {
    seq(|uids|, i requires 0 <= i < |uids| => encode(uids[i]).value)
  }

  lemma NoneEncoded(encode: nat -> Option<bytes>, selected: seq<nat>, items: seq<bytes>)
    ensures AllEncode(encode, selected[..0]) && items + Encoded(encode, selected[..0]) == items
  {
  }

  lemma EncodedNext(encode: nat -> Option<bytes>, selected: seq<nat>, i: nat, items: seq<bytes>)
    requires i < |selected| && AllEncode(encode, selected[..i])
    ensures encode(selected[i]).None? ==> !AllEncode(encode, selected)
    ensures encode(selected[i]).Some? ==>
              && AllEncode(encode, selected[..i + 1])
              && items + Encoded(encode, selected[..i]) + [encode(selected[i]).value] == items + Encoded(encode, selected[..i + 1])
  {
    var upto := selected[..i + 1];
    assert forall k :: 0 <= k < i ==> upto[k] == selected[..i][k];
    if encode(selected[i]).Some? {
      assert Encoded(encode, upto) == Encoded(encode, selected[..i]) + [encode(selected[i]).value];
    }
  }

  lemma EncodedGrows(encode: nat -> Option<bytes>, selected: seq<nat>, n: nat, items: seq<bytes>)
    requires n <= |selected| && AllEncode(encode, selected) && AllEncode(encode, selected[..n])
    ensures |EncodedArray(items + Encoded(encode, selected))| >= |EncodedArray(items + Encoded(encode, selected[..n]))|
  {
    hide EncodedArray;
    var more := Encoded(encode, selected)[n..];
    assert Encoded(encode, selected) == Encoded(encode, selected[..n]) + more;
    ArrayGrows(items + Encoded(encode, selected[..n]), more);
    assert items + Encoded(encode, selected[..n]) + more == items + Encoded(encode, selected);
  }

  /** Appends the encoded messages one by one; it succeeds exactly when all of
      them encode and the whole array fits. */
  method AppendItems(selected: seq<nat>, encode: nat -> Option<bytes>, maxOutput: nat, items: seq<bytes>, size: nat)
    returns (ok: bool, items': seq<bytes>, size': nat)
    requires size == |EncodedArray(items)| <= maxOutput
    ensures ok <==> AllEncode(encode, selected) && |EncodedArray(items + Encoded(encode, selected))| <= maxOutput
    ensures ok ==> items' == items + Encoded(encode, selected) && size' == |EncodedArray(items')| <= maxOutput
  {
    hide EncodedArray, Encoded, AllEncode;
    items', size' := items, size;
    NoneEncoded(encode, selected, items);
    for i := 0 to |selected|
      invariant AllEncode(encode, selected[..i]) && items' == items + Encoded(encode, selected[..i])
      invariant size' == |EncodedArray(items')| <= maxOutput
    {
      var item := encode(selected[i]);
      EncodedNext(encode, selected, i, items);
      if item.None? {
        return false, items', size';
      }
      ArrayMore(items', item.value);
      var separator := if |items'| > 0 then 1 else 0;
      if |item.value| + separator > maxOutput - size' {
        if AllEncode(encode, selected) {
          EncodedGrows(encode, selected, i + 1, items);
        }
        return false, items', size';
      }
      items' := items' + [item.value];
      size' := size' + |item.value| + separator;
    }
    assert selected[..|selected|] == selected;
    ok := true;
  }

  // ---- The page ----

  /** One window's exchange with the server; None is a failure. */
  datatype Exchange = Exchange(searched: Option<seq<nat>>, fetched: Option<seq<nat>>)

  datatype Page =
    | Page(uids: seq<nat>, items: seq<bytes>, truncated: bool)
    | Failed(why: Failure)

  /** Why a search fails; k is the window and uids the page so far. */
  datatype Failure =
    | SmallBound
    | NoAnswer(k: nat)
    | BadAnswer(k: nat)
    | NoMetadata(k: nat)
    | WrongMetadata(k: nat, selected: seq<nat>)
    | TooLarge(uids: seq<nat>)

  /** The failure happened. */
  ghost predicate Happened(f: Failure, uidNext: nat, maxResults: nat, maxOutput: nat, encode: nat -> Option<bytes>, script: seq<Exchange>) {
    match f
    case SmallBound => maxOutput < 2
    case NoAnswer(k) => k < |script| && script[k].searched.None?
    case BadAnswer(k) =>
      k < |script| && k < |Windows(uidNext)| && script[k].searched.Some? && !WellFormed(script[k].searched.value, Windows(uidNext)[k])
    case NoMetadata(k) => k < |script| && script[k].fetched.None?
    case WrongMetadata(k, selected) =>
      && k < |script| && script[k].searched.Some? && script[k].fetched.Some? && StrictlyDescending(selected)
      && (forall n :: n in selected ==> n in script[k].searched.value)
      && multiset(script[k].fetched.value) != multiset(selected)
    case TooLarge(uids) =>
      && |uids| <= maxResults && StrictlyDescending(uids) && (forall n :: n in uids ==> 1 <= n < uidNext)
      && !(AllEncode(encode, uids) && |EncodedArray(Encoded(encode, uids))| <= maxOutput)
  }

  /** The k-th window is answered with exactly the matches in it. */
  ghost predicate Honest(script: seq<Exchange>, uidNext: nat, matching: set<nat>) {
    forall k :: 0 <= k < |script| && k < |Windows(uidNext)| && script[k].searched.Some? ==>
      Answers(script[k].searched.value, matching, Windows(uidNext)[k])
  }

  /** The highest matches down to low, at most limit of them: every match left
      out is below all that are in. */
  ghost predicate Highest(uids: seq<nat>, matching: set<nat>, low: nat, uidNext: nat, limit: nat) {
    && (forall n :: n in uids ==> n in matching)
    && (forall m :: m in matching && low <= m < uidNext && m !in uids ==> |uids| == limit && forall n :: n in uids ==> n > m)
  }

  ghost predicate Complete(uids: seq<nat>, matching: set<nat>, low: nat, uidNext: nat) {
    forall m :: m in matching && low <= m < uidNext ==> m in uids
  }

  lemma {:induction false} SameOrder(r: seq<nat>, s: seq<nat>, k: nat)
    requires Descending(r) && StrictlyDescending(s) && multiset(r) == multiset(s) && k <= |s|
    ensures |r| == |s| && r[..k] == s[..k]
    decreases k
  {
    SameElements(s, r);
    DistinctPermutes(s, r);
    if k > 0 {
      SameOrder(r, s, k - 1);
      var a, b := r[k - 1], s[k - 1];
      assert forall i :: 0 <= i < k - 1 ==> r[i] == r[..k - 1][i] == s[..k - 1][i] == s[i];
      assert a in r && b in s;
      var i :| 0 <= i < |s| && s[i] == a;
      var j :| 0 <= j < |r| && r[j] == b;
      assert i >= k - 1 && j >= k - 1;
      assert r[..k] == r[..k - 1] + [a] && s[..k] == s[..k - 1] + [b];
    }
  }

  /** A window's selection, of at most room UIDs, highest first. */
  ghost predicate Selection(selected: seq<nat>, answer: seq<nat>, w: Window, room: nat) {
    && WellFormed(answer, w) && StrictlyDescending(selected)
    && (forall n :: n in selected ==> n in answer)
    && |selected| == (if |answer| < room then |answer| else room)
    && (forall n, k :: n in answer && n !in selected && 0 <= k < |selected| ==> selected[k] > n)
  }

  ghost predicate Answers(answer: seq<nat>, matching: set<nat>, w: Window) {
    forall n :: n in answer <==> n in matching && Covers(w, n)
  }

  lemma SelectionInside(selected: seq<nat>, answer: seq<nat>, w: Window, room: nat)
    requires Selection(selected, answer, w, room)
    ensures forall n :: n in selected ==> w.start <= n <= w.end
    ensures |selected| == |answer| ==> forall n :: n in answer ==> n in selected
    ensures |selected| < |answer| ==> exists n :: n in answer && n !in selected
  {
    forall n | n in selected ensures w.start <= n <= w.end {
      var k :| 0 <= k < |answer| && answer[k] == n;
    }
    if |selected| == |answer| {
      SubsetSameSize(selected, answer);
    } else {
      ElementsOf(answer);
      ElementsOf(selected);
      if forall n :: n in answer ==> n in selected {
        SubsetSize(Elements(answer), Elements(selected));
      }
    }
  }

  /** Adding a window's selection below what is already selected. */
  lemma JoinsInOrder(uids: seq<nat>, selected: seq<nat>, answer: seq<nat>, w: Window, uidNext: nat, limit: nat)
    requires StrictlyDescending(uids) && |uids| < limit && 1 <= w.start <= w.end < uidNext
    requires (forall n :: n in uids ==> w.end < n < uidNext) && Selection(selected, answer, w, limit - |uids|)
    ensures StrictlyDescending(uids + selected) && |uids + selected| <= limit && forall n :: n in uids + selected ==> w.start <= n < uidNext
  {
    hide WellFormed;
    var all := uids + selected;
    SelectionInside(selected, answer, w, limit - |uids|);
    assert forall n :: n in all <==> n in uids || n in selected;
    forall i, j | 0 <= i < j < |all| ensures all[i] > all[j] {
      if i < |uids| <= j {
        assert all[i] in uids && all[j] in selected;
      }
    }
  }

  lemma Joins(uids: seq<nat>, selected: seq<nat>, answer: seq<nat>, matching: set<nat>, w: Window, uidNext: nat, limit: nat)
    requires |uids| < limit && 1 <= w.start <= w.end < uidNext
    requires forall n :: n in uids ==> w.end < n < uidNext
    requires Selection(selected, answer, w, limit - |uids|) && Answers(answer, matching, w)
    ensures Highest(uids, matching, w.end + 1, uidNext, limit) ==> Highest(uids + selected, matching, w.start, uidNext, limit)
    ensures Complete(uids, matching, w.end + 1, uidNext) && |selected| == |answer| ==> Complete(uids + selected, matching, w.start, uidNext)
    ensures |selected| < |answer| ==> |uids + selected| == limit && !Complete(uids + selected, matching, w.start, uidNext)
  {
    hide WellFormed, StrictlyDescending;
    var all := uids + selected;
    SelectionInside(selected, answer, w, limit - |uids|);
    assert forall n :: n in all <==> n in uids || n in selected;
    if |selected| < |answer| {
      var n :| n in answer && n !in selected;
      assert n in matching && Covers(w, n) && n !in all;
    }
    if Highest(uids, matching, w.end + 1, uidNext, limit) {
      forall m | m in matching && w.start <= m < uidNext && m !in all
        ensures |all| == limit && forall n :: n in all ==> n > m
      {
        assert m <= w.end;
        assert Covers(w, m) && m in answer && m !in selected;
        forall n | n in selected ensures n > m {
          var k :| 0 <= k < |selected| && selected[k] == n;
        }
      }
    }
  }

  /** A selection as large as the answer it is drawn from is all of it. */
  lemma SubsetSameSize(selected: seq<nat>, answer: seq<nat>)
    requires StrictlyDescending(selected) && Distinct(answer) && |selected| == |answer| && forall n :: n in selected ==> n in answer
    ensures forall n :: n in answer ==> n in selected
  {
    var a, b := Elements(selected), Elements(answer);
    ElementsOf(selected);
    ElementsOf(answer);
    forall n | n in answer ensures n in selected {
      if n !in selected {
        SubsetSize(a, b - {n});
      }
    }
  }

  function Elements(s: seq<nat>): set<nat> {
    if s == [] then {} else {s[0]} + Elements(s[1..])
  }

  lemma {:induction false} ElementsOf(s: seq<nat>)
    requires Distinct(s)
    ensures |Elements(s)| == |s| && forall n :: n in Elements(s) <==> n in s
    decreases |s|
  {
    if s != [] {
      var tail := s[1..];
      assert forall i :: 0 <= i < |tail| ==> tail[i] == s[i + 1];
      ElementsOf(tail);
      assert s[0] !in tail;
    }
  }

  /** The fetched metadata highest first, which is the order it was asked for. */
  method MetadataInOrder(selected: seq<nat>, fetched: seq<nat>) returns (valid: bool, metadata: seq<nat>)
    requires StrictlyDescending(selected) && 0 !in selected
    ensures valid <==> multiset(fetched) == multiset(selected)
    ensures valid ==> metadata == selected
  {
    metadata := [];
    valid := ValidateFetchedUids(selected, fetched);
    if valid {
      metadata := SortedDown(fetched);
      SortedDownIs(fetched);
      SameOrder(metadata, selected, |selected|);
      assert metadata[..|metadata|] == metadata && selected[..|selected|] == selected;
    }
  }

  /** The page so far: what the loop keeps from window to window. */
  ghost predicate SoFar(uids: seq<nat>, items: seq<bytes>, size: nat, low: nat, uidNext: nat, maxResults: nat, maxOutput: nat, encode: nat -> Option<bytes>) {
    && StrictlyDescending(uids) && |uids| <= maxResults && (forall n :: n in uids ==> low <= n < uidNext)
    && AllEncode(encode, uids) && items == Encoded(encode, uids) && size == |EncodedArray(items)| <= maxOutput
  }

  /** One window: its search, its selection, its metadata and their output. */
  method SearchWindow(k: nat, window: Window, uidNext: nat, maxResults: nat, maxOutput: nat, encode: nat -> Option<bytes>, script: seq<Exchange>,
                      uids: seq<nat>, items: seq<bytes>, size: nat, ghost matching: set<nat>)
    returns (failed: Option<Failure>, uids': seq<nat>, items': seq<bytes>, size': nat, short: bool)
    requires k < |script| && k < |Windows(uidNext)| && Windows(uidNext)[k] == window && 1 <= window.start <= window.end < uidNext
    requires SoFar(uids, items, size, window.end + 1, uidNext, maxResults, maxOutput, encode) && |uids| < maxResults
    ensures failed.Some? ==> Happened(failed.value, uidNext, maxResults, maxOutput, encode, script)
    ensures failed.None? ==> SoFar(uids', items', size', window.start, uidNext, maxResults, maxOutput, encode)
    ensures failed.None? && Honest(script, uidNext, matching) ==>
              && (Highest(uids, matching, window.end + 1, uidNext, maxResults) ==> Highest(uids', matching, window.start, uidNext, maxResults))
              && (Complete(uids, matching, window.end + 1, uidNext) && !short ==> Complete(uids', matching, window.start, uidNext))
              && (short ==> |uids'| == maxResults && !Complete(uids', matching, window.start, uidNext))
  {
    hide EncodedArray, Encoded, Joined, Highest, Complete, Windows, Width;
    uids', items', size', short := uids, items, size, false;
    var exchange := script[k];
    if exchange.searched.None? {
      return Some(NoAnswer(k)), uids, items, size, false;
    }
    var answer := exchange.searched.value;
    var selected := SelectHighestUids(answer, window, maxResults - |uids|);
    if selected.None? {
      return Some(BadAnswer(k)), uids, items, size, false;
    }
    if exchange.fetched.None? {
      return Some(NoMetadata(k)), uids, items, size, false;
    }
    var valid, metadata := MetadataInOrder(selected.value, exchange.fetched.value);
    if !valid {
      return Some(WrongMetadata(k, selected.value)), uids, items, size, false;
    }
    assert Selection(metadata, answer, window, maxResults - |uids|);
    JoinsInOrder(uids, metadata, answer, window, uidNext, maxResults);
    if Answers(answer, matching, window) {
      Joins(uids, metadata, answer, matching, window, uidNext, maxResults);
    }
    EncodedMore(encode, uids, metadata);
    var ok;
    ok, items', size' := AppendItems(metadata, encode, maxOutput, items, size);
    if !ok {
      return Some(TooLarge(uids + metadata)), uids, items, size, false;
    }
    failed, uids', short := None, uids + metadata, |metadata| < |answer|;
  }

  /** Searches window after window from the top. matching stands for the
      messages that truly match, and low for the lowest UID examined. */
  method SearchMailPage(uidNext: nat, maxResults: nat, maxOutput: nat, encode: nat -> Option<bytes>, script: seq<Exchange>, ghost matching: set<nat>)
    returns (page: Page, ghost low: nat)
    requires 1 <= uidNext <= MAX_UINT32 && |script| == MAX_WINDOWS
    ensures page.Failed? ==> Happened(page.why, uidNext, maxResults, maxOutput, encode, script)
    ensures page.Page? ==>
              && StrictlyDescending(page.uids) && |page.uids| <= maxResults
              && (forall n :: n in page.uids ==> 1 <= n < uidNext)
              && AllEncode(encode, page.uids) && page.items == Encoded(encode, page.uids)
              && |EncodedArray(page.items)| <= maxOutput
    ensures page.Page? ==> 1 <= low <= uidNext && (low == 1 || |page.uids| == maxResults || low == uidNext - MAX_WINDOWS * WINDOW_WIDTH)
    ensures page.Page? && Honest(script, uidNext, matching) ==> Highest(page.uids, matching, low, uidNext, maxResults)
    ensures page.Page? && Honest(script, uidNext, matching) ==>
              (page.truncated <==> low > 1 || !Complete(page.uids, matching, 1, uidNext))
  {
    hide EncodedArray, Encoded, Joined, Highest, Complete, StrictlyDescending, AllEncode, Width, Windows, Honest, Happened, SoFar;
    if maxOutput < 2 {
      assert Happened(SmallBound, uidNext, maxResults, maxOutput, encode, script) by { TooSmall(uidNext, maxResults, maxOutput, encode, script); }
      return Failed(SmallBound), 0;
    }
    var uids: seq<nat>, items: seq<bytes> := [], [];
    var size, omitted, remaining, windows := 2, false, uidNext, 0;
    StartsEmpty(encode, matching, uidNext, maxResults, maxOutput);
    ghost var all := Windows(uidNext);
    assert all[..0] + Windows(remaining) == all;
    while remaining > 1 && windows < MAX_WINDOWS && |uids| < maxResults
      invariant windows <= MAX_WINDOWS && 1 <= remaining <= uidNext
      invariant windows <= |all| && all == all[..windows] + Windows(remaining)
      invariant remaining > 1 ==> remaining == uidNext - windows * WINDOW_WIDTH
      invariant SoFar(uids, items, size, remaining, uidNext, maxResults, maxOutput, encode)
      invariant Honest(script, uidNext, matching) ==> Highest(uids, matching, remaining, uidNext, maxResults)
      invariant Honest(script, uidNext, matching) && !omitted ==> Complete(uids, matching, remaining, uidNext)
      invariant Honest(script, uidNext, matching) && omitted ==> |uids| == maxResults && !Complete(uids, matching, remaining, uidNext)
      decreases remaining
    {
      var window := Below(remaining);
      WindowAt(all, windows, remaining);
      var failed, more, encoded, bigger, short :=
        SearchWindow(windows, window, uidNext, maxResults, maxOutput, encode, script, uids, items, size, matching);
      if failed.Some? {
        return Failed(failed.value), 0;
      }
      omitted := omitted || short;
      uids, items, size := more, encoded, bigger;
      windows := windows + 1;
      WindowsNext(all, windows, remaining);
      remaining := window.start;
    }
    SoFarMeans(uids, items, size, remaining, uidNext, maxResults, maxOutput, encode);
    low := remaining;
    page := Page(uids, items, omitted || remaining > 1);
  }

  lemma StartsEmpty(encode: nat -> Option<bytes>, matching: set<nat>, uidNext: nat, limit: nat, maxOutput: nat)
    requires maxOutput >= 2
    ensures SoFar([], [], 2, uidNext, uidNext, limit, maxOutput, encode)
    ensures Highest([], matching, uidNext, uidNext, limit) && Complete([], matching, uidNext, uidNext)
  {
  }

  lemma EncodedMore(encode: nat -> Option<bytes>, uids: seq<nat>, more: seq<nat>)
    requires AllEncode(encode, uids)
    ensures AllEncode(encode, uids + more) <==> AllEncode(encode, more)
    ensures AllEncode(encode, more) ==> Encoded(encode, uids + more) == Encoded(encode, uids) + Encoded(encode, more)
  {
    assert forall i :: 0 <= i < |more| ==> (uids + more)[|uids| + i] == more[i];
  }

  lemma TooSmall(uidNext: nat, maxResults: nat, maxOutput: nat, encode: nat -> Option<bytes>, script: seq<Exchange>)
    requires maxOutput < 2
    ensures Happened(SmallBound, uidNext, maxResults, maxOutput, encode, script)
  {
  }

  lemma SoFarMeans(uids: seq<nat>, items: seq<bytes>, size: nat, low: nat, uidNext: nat, maxResults: nat, maxOutput: nat, encode: nat -> Option<bytes>)
    requires SoFar(uids, items, size, low, uidNext, maxResults, maxOutput, encode)
    ensures StrictlyDescending(uids) && |uids| <= maxResults && forall n :: n in uids ==> low <= n < uidNext
    ensures AllEncode(encode, uids) && items == Encoded(encode, uids) && |EncodedArray(items)| <= maxOutput
  {
  }

  lemma WindowAt(all: seq<Window>, windows: nat, remaining: nat)
    requires windows <= |all| && all == all[..windows] + Windows(remaining) && remaining > 1
    ensures windows < |all| && all[windows] == Below(remaining)
  {
    assert all[windows] == Windows(remaining)[0];
  }

  lemma WindowsNext(all: seq<Window>, windows: nat, remaining: nat)
    requires 0 < windows <= |all| && remaining > 1 && all == all[..windows - 1] + Windows(remaining)
    ensures all == all[..windows] + Windows(Below(remaining).start)
  {
    var window := Below(remaining);
    assert Windows(remaining) == [window] + Windows(window.start);
    assert all[windows - 1] == window;
  }
}
