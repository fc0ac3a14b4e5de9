/** The bounded max-heap that keeps the earliest messages
    (bridge/threads.go:104-158). */
module ThreadSelection {
  import opened ThreadOrder

  predicate Child(p: int, c: int) {
    c == 2 * p + 1 || c == 2 * p + 2
  }

  /** No element is later than its parent. */
  ghost predicate Heap(h: seq<Indexed>) {
    forall p, c {:trigger Child(p, c)} :: 0 <= p < c < |h| && Child(p, c) ==> !Before(h[p], h[c])
  }

  /** A heap but around the place j, whose children suit its parent. */
  ghost predicate HeapBut(h: seq<Indexed>, j: int) {
    && (forall p, c {:trigger Child(p, c)} :: 0 <= p < c < |h| && Child(p, c) && p != j && c != j ==> !Before(h[p], h[c]))
    && (forall p, c {:trigger Child(p, j), Child(j, c)} :: 0 <= p < j < c < |h| && Child(p, j) && Child(j, c) ==> !Before(h[p], h[c]))
  }

  /** The place j is not later than its parent. */
  ghost predicate AboveOk(h: seq<Indexed>, j: int) {
    forall p {:trigger Child(p, j)} :: 0 <= p < j < |h| && Child(p, j) ==> !Before(h[p], h[j])
  }

  ghost predicate BelowOk(h: seq<Indexed>, j: int) {
    forall c {:trigger Child(j, c)} :: 0 <= j < c < |h| && Child(j, c) ==> !Before(h[j], h[c])
  }

  lemma HeapParts(h: seq<Indexed>, j: int)
    ensures HeapBut(h, j) && AboveOk(h, j) && BelowOk(h, j) ==> Heap(h)
    ensures Heap(h) ==> AboveOk(h, j) && BelowOk(h, j)
  {
    hide Before;
  }

  function Swapped(h: seq<Indexed>, i: nat, j: nat): (r: seq<Indexed>)
    requires i < |h| && j < |h|
    ensures |r| == |h| && r[i] == h[j] && r[j] == h[i]
    ensures forall k :: 0 <= k < |h| && k != i && k != j ==> r[k] == h[k]
  {
    h[i := h[j]][j := h[i]]
  }

  lemma SwappedSame(h: seq<Indexed>, i: nat, j: nat)
    requires i < |h| && j < |h|
    ensures multiset(Swapped(h, i, j)) == multiset(h)
  {
  }

  /** Raising a later child over its parent moves the gap up. */
  lemma SwapUp(h: seq<Indexed>, p: nat, j: nat)
    requires p < j < |h| && Child(p, j) && HeapBut(h, j) && BelowOk(h, j) && Before(h[p], h[j])
    ensures HeapBut(Swapped(h, p, j), p) && BelowOk(Swapped(h, p, j), p)
  {
    hide Before;
    var r := Swapped(h, p, j);
    BeforeAntisymmetric(h[p], h[j]);
    forall c | p < c < |r| && Child(p, c) ensures !Before(r[p], r[c]) {
      if c != j {
        assert !Before(h[p], h[c]);
        LaterStill(h[j], h[p], h[c]);
      }
    }
    forall g, c | 0 <= g < p < c < |r| && Child(g, p) && Child(p, c) ensures !Before(r[g], r[c]) {
      assert !Before(h[g], h[p]);
      if c != j {
        assert !Before(h[p], h[c]);
        NotLater(h[g], h[p], h[c]);
      }
    }
  }

  /** j is the later of the children of i. */
  ghost predicate Latest(h: seq<Indexed>, i: nat, j: nat) {
    && i < j < |h| && Child(i, j)
    && forall d :: i < d < |h| && Child(i, d) ==> !Before(h[j], h[d])
  }

  lemma LaterChild(h: seq<Indexed>, i: nat, j: nat)
    requires i < j < |h| && (j == 2 * i + 1 || j == 2 * i + 2)
    requires j == 2 * i + 1 ==> j + 1 == |h| || !Before(h[j], h[j + 1])
    requires j == 2 * i + 2 ==> Before(h[j - 1], h[j])
    ensures Latest(h, i, j)
  {
    hide Before;
    forall d | i < d < |h| && Child(i, d) ensures !Before(h[j], h[d]) {
      BeforeAntisymmetric(h[j], h[j]);
      if d < j {
        BeforeAntisymmetric(h[d], h[j]);
      }
    }
  }

  lemma FirstIsAbove(h: seq<Indexed>)
    ensures AboveOk(h, 0)
  {
  }

  lemma NoChildren(h: seq<Indexed>, i: nat)
    requires 2 * i + 1 >= |h|
    ensures BelowOk(h, i)
  {
  }

  lemma BelowHolds(h: seq<Indexed>, i: nat, j: nat)
    requires Latest(h, i, j) && !Before(h[i], h[j])
    ensures BelowOk(h, i)
  {
    hide Before;
    forall d | i < d < |h| && Child(i, d) ensures !Before(h[i], h[d]) {
      NotLater(h[i], h[j], h[d]);
    }
  }

  /** Lowering a place under its later child moves the gap down. */
  lemma SwapDown(h: seq<Indexed>, j: nat, c: nat)
    requires Latest(h, j, c) && HeapBut(h, j) && AboveOk(h, j) && Before(h[j], h[c])
    ensures HeapBut(Swapped(h, j, c), c) && AboveOk(Swapped(h, j, c), c)
  {
    hide Before;
    var r := Swapped(h, j, c);
    BeforeAntisymmetric(h[j], h[c]);
    forall p, d | 0 <= p < d < |r| && Child(p, d) && p != c && d != c ensures !Before(r[p], r[d]) {
      if d == j {
        assert Child(p, j) && Child(j, c);
      }
    }
    forall p, d | 0 <= p < c < d < |r| && Child(p, c) && Child(c, d) ensures !Before(r[p], r[d]) {
      assert p == j;
    }
  }

  /** What is not later than a is not later than anything later than a. */
  lemma LaterStill(b: Indexed, a: Indexed, c: Indexed)
    requires Before(a, b) && !Before(a, c)
    ensures !Before(b, c)
  {
    hide Before;
    if Before(b, c) {
      BeforeTransitive(a, b, c);
    }
  }

  /** Not being earlier passes on, ties included. */
  lemma NotLater(a: Indexed, b: Indexed, c: Indexed)
    requires !Before(a, b) && !Before(b, c)
    ensures !Before(a, c)
  {
    if Before(a, c) {
      Tied(a, b);
      Tied(b, c);
      if Before(b, a) {
        BeforeTransitive(b, a, c);
      } else if Before(c, b) {
        BeforeTransitive(a, c, b);
      }
    }
  }

  /** Two elements neither of which is earlier agree in everything compared. */
  lemma Tied(a: Indexed, b: Indexed)
    ensures Before(a, b) || Before(b, a) ||
            (a.message.receivedAt == b.message.receivedAt && a.message.key == b.message.key
             && a.message.messageId == b.message.messageId && a.inputIndex == b.inputIndex)
  {
    hide TextBefore;
    TextTotal(a.message.key, b.message.key);
    TextTotal(a.message.messageId, b.message.messageId);
  }

  /** The first element of a heap is not earlier than any other. */
  lemma {:induction false} RootIsLatest(h: seq<Indexed>, i: nat)
    requires Heap(h) && i < |h|
    ensures !Before(h[0], h[i])
    decreases i
  {
    hide Before;
    if i == 0 {
      BeforeAntisymmetric(h[0], h[0]);
    } else {
      var p := (i - 1) / 2;
      assert Child(p, i);
      RootIsLatest(h, p);
      NotLater(h[0], h[p], h[i]);
    }
  }

  // ---- The heap operations, in place ----

  method Swap(a: array<Indexed>, n: nat, i: nat, j: nat)
    requires i < n <= a.Length && j < n
    modifies a
    ensures a[..n] == Swapped(old(a[..n]), i, j) && a[n..] == old(a[n..])
    ensures multiset(a[..n]) == multiset(old(a[..n]))
  {
    SwappedSame(a[..n], i, j);
    a[i], a[j] := a[j], a[i];
    assert a[..n] == Swapped(old(a[..n]), i, j);
  }

  /** Raises the element at from until its parent is not earlier. */
  method Up(a: array<Indexed>, n: nat, from: nat)
    requires from < n <= a.Length && HeapBut(a[..n], from) && BelowOk(a[..n], from)
    modifies a
    ensures Heap(a[..n]) && multiset(a[..n]) == multiset(old(a[..n])) && a[n..] == old(a[n..])
  {
    hide Before;
    var j := from;
    while j > 0 && Before(a[(j - 1) / 2], a[j])
      invariant 0 <= j < n
      invariant HeapBut(a[..n], j) && BelowOk(a[..n], j)
      invariant multiset(a[..n]) == multiset(old(a[..n])) && a[n..] == old(a[n..])
    {
      var p := (j - 1) / 2;
      ghost var h := a[..n];
      assert Child(p, j);
      SwapUp(h, p, j);
      Swap(a, n, p, j);
      j := p;
    }
    assert AboveOk(a[..n], j) by {
      forall p | 0 <= p < j && Child(p, j) ensures !Before(a[..n][p], a[..n][j]) {
        assert p == (j - 1) / 2;
      }
    }
    HeapParts(a[..n], j);
  }

  /** Lowers the first element until no child is later. */
  method Down(a: array<Indexed>, n: nat)
    requires 0 < n <= a.Length && HeapBut(a[..n], 0)
    modifies a
    ensures Heap(a[..n]) && multiset(a[..n]) == multiset(old(a[..n])) && a[n..] == old(a[n..])
  {
    hide Before, Heap, HeapBut, AboveOk, BelowOk, Latest, Child, Swapped;
    var i := 0;
    FirstIsAbove(a[..n]);
    while 2 * i + 1 < n
      invariant 0 <= i < n
      invariant HeapBut(a[..n], i) && AboveOk(a[..n], i)
      invariant multiset(a[..n]) == multiset(old(a[..n])) && a[n..] == old(a[n..])
    {
      ghost var h := a[..n];
      var j := 2 * i + 1;
      if j + 1 < n && Before(a[j], a[j + 1]) {
        j := j + 1;
      }
      LaterChild(h, i, j);
      if !Before(a[i], a[j]) {
        BelowHolds(h, i, j);
        HeapParts(h, i);
        return;
      }
      SwapDown(h, i, j);
      Swap(a, n, i, j);
      i := j;
    }
    NoChildren(a[..n], i);
    HeapParts(a[..n], i);
  }

  /** Adds an element at the end of the heap and raises it. */
  method Push(a: array<Indexed>, n: nat, x: Indexed)
    requires n < a.Length && Heap(a[..n])
    modifies a
    ensures Heap(a[..n + 1]) && multiset(a[..n + 1]) == multiset(old(a[..n]) + [x])
  {
    hide Before;
    ghost var h := a[..n];
    a[n] := x;
    assert a[..n + 1] == h + [x];
    assert HeapBut(a[..n + 1], n) && BelowOk(a[..n + 1], n);
    Up(a, n + 1, n);
  }

  /** Replaces the first element and restores the heap. */
  method ReplaceFirst(a: array<Indexed>, n: nat, x: Indexed)
    requires 0 < n <= a.Length && Heap(a[..n])
    modifies a
    ensures Heap(a[..n]) && multiset(a[..n]) == multiset([x] + old(a[1..n]))
  {
    hide Before;
    ghost var h := a[..n];
    a[0] := x;
    assert a[..n] == [x] + old(a[1..n]);
    assert forall i :: 0 < i < n ==> a[..n][i] == h[i];
    assert HeapBut(a[..n], 0);
    Down(a, n);
  }

  // ---- The selection ----

  function Least(a: nat, b: nat): nat {
    if a < b then a else b
  }

  /** The choice among the first count messages: at most limit of them, none
      twice, and all that are left out are later than all that are in. */
  ghost predicate Chosen(m: multiset<Indexed>, all: seq<Indexed>, count: nat, limit: nat)
    requires count <= |all|
  {
    && |m| == Least(count, limit)
    && (forall y :: y in m ==> m[y] == 1 && y in all[..count])
    && (forall y :: y in all[..count] && y !in m ==> |m| == limit && forall x :: x in m ==> Before(x, y))
  }

  lemma NoChoice(all: seq<Indexed>, limit: nat)
    ensures Heap([]) && Chosen(multiset([]), all, 0, limit)
  {
  }

  lemma ChosenMore(m: multiset<Indexed>, all: seq<Indexed>, count: nat, limit: nat)
    requires count < |all| && DistinctPlaces(all) && Chosen(m, all, count, limit) && count < limit
    ensures Chosen(m + multiset{all[count]}, all, count + 1, limit)
  {
    hide Before;
    var x := all[count];
    assert all[..count + 1] == all[..count] + [x];
    assert x !in all[..count];
  }

  /** A heap's first element is after all its others. */
  lemma LatestOfChoice(h: seq<Indexed>, all: seq<Indexed>, count: nat, limit: nat, x: Indexed)
    requires count <= |all| && DistinctPlaces(all) && Chosen(multiset(h), all, count, limit) && Heap(h) && h != [] && x in h && x != h[0]
    ensures Before(x, h[0])
  {
    hide Before;
    var i :| 0 <= i < |h| && h[i] == x;
    RootIsLatest(h, i);
    assert x in multiset(h) && h[0] in multiset(h);
    PlaceIs(all, x, h[0]);
    BeforeTotal(x, h[0]);
  }

  lemma PlaceIs(all: seq<Indexed>, x: Indexed, y: Indexed)
    requires DistinctPlaces(all) && x in all && y in all && x != y
    ensures x.inputIndex != y.inputIndex
  {
    var i :| 0 <= i < |all| && all[i] == x;
    var j :| 0 <= j < |all| && all[j] == y;
  }

  lemma ChosenReplaced(h: seq<Indexed>, all: seq<Indexed>, count: nat, limit: nat)
    requires count < |all| && DistinctPlaces(all) && Chosen(multiset(h), all, count, limit) && Heap(h) && |h| == limit > 0
    requires Before(all[count], h[0])
    ensures Chosen(multiset([all[count]] + h[1..]), all, count + 1, limit)
  {
    hide Before, Heap;
    var x, root := all[count], h[0];
    assert all[..count + 1] == all[..count] + [x];
    assert x !in all[..count];
    assert h == [root] + h[1..];
    var old_, m := multiset(h), multiset([x] + h[1..]);
    assert old_ == multiset{root} + multiset(h[1..]);
    assert m == multiset{x} + multiset(h[1..]);
    assert root in old_ && old_[root] == 1;
    forall y | y in m ensures m[y] == 1 && y in all[..count + 1] {
      if y != x {
        assert old_[y] >= m[y] && y in old_;
      } else {
        assert x !in old_;
      }
    }
    forall y | y in all[..count + 1] && y !in m ensures |m| == limit && forall z :: z in m ==> Before(z, y) {
      assert y != x && y in all[..count];
      forall z | z in m ensures Before(z, y) {
        if z != x {
          assert z in old_ && z != root;
          LatestOfChoice(h, all, count, limit, z);
        }
        if y != root {
          assert y !in old_ && Before(root, y);
          BeforeTransitive(z, root, y);
        }
      }
    }
    assert |m| == limit;
  }

  lemma ChosenKept(h: seq<Indexed>, all: seq<Indexed>, count: nat, limit: nat)
    requires count < |all| && DistinctPlaces(all) && Chosen(multiset(h), all, count, limit) && Heap(h) && |h| == limit > 0
    requires !Before(all[count], h[0])
    ensures Chosen(multiset(h), all, count + 1, limit)
  {
    hide Before, Heap;
    var x, root := all[count], h[0];
    assert all[..count + 1] == all[..count] + [x];
    assert root in multiset(h);
    PlaceIs(all, root, x) by {
      assert x !in all[..count];
      assert all[count] in all;
    }
    BeforeTotal(x, root);
    forall z | z in multiset(h) ensures Before(z, x) {
      if z != root {
        LatestOfChoice(h, all, count, limit, z);
        BeforeTransitive(z, root, x);
      }
    }
  }

  lemma ChoiceDistinct(s: seq<Indexed>, all: seq<Indexed>)
    requires DistinctPlaces(all) && forall y :: y in multiset(s) ==> multiset(s)[y] == 1 && y in all
    ensures DistinctPlaces(s)
  {
    forall i, j | 0 <= i < j < |s| ensures s[i].inputIndex != s[j].inputIndex {
      assert s == s[..j] + [s[j]] + s[j + 1..];
      assert s[i] in s[..j] by { assert s[..j][i] == s[i]; }
      assert multiset(s) == multiset(s[..j]) + multiset{s[j]} + multiset(s[j + 1..]);
      assert s[i] in multiset(s) && s[j] in multiset(s);
      PlaceIs(all, s[i], s[j]);
    }
  }

  function MessagesOf(s: seq<Indexed>): (r: seq<ThreadMessage>)
    ensures |r| == |s| && forall i :: 0 <= i < |r| ==> r[i] == s[i].message
  {
    seq(|s|, i requires 0 <= i < |s| => s[i].message)
  }

  /** The earliest messages: all of them in order, cut to the limit. */
  ghost function Earliest(messages: seq<ThreadMessage>, limit: nat): seq<ThreadMessage> {
    SortedLength(messages);
    MessagesOf(Sorted(Number(messages))[..Least(|messages|, limit)])
  }

  lemma SortedLength(messages: seq<ThreadMessage>)
    ensures |Sorted(Number(messages))| == |messages|
  {
    SortedIs(Number(messages));
  }

  lemma ChoiceIsEarliest(h: seq<Indexed>, messages: seq<ThreadMessage>, limit: nat)
    requires Chosen(multiset(h), Number(messages), |messages|, limit)
    ensures MessagesOf(Sorted(h)) == Earliest(messages, limit)
  {
    hide Before, Sorted;
    var all := Number(messages);
    assert all[..|messages|] == all;
    ChoiceDistinct(h, all);
    SortedIs(h);
    SortedIs(all);
    var r, s := Sorted(h), Sorted(all);
    assert |r| == |multiset(h)|;
    forall y, i | y in s && y !in r && 0 <= i < |r| ensures Before(r[i], y) {
      assert r[i] in r && r[i] in multiset(h) && y !in multiset(h);
    }
    ChoiceIsPrefix(r, s, |r|);
    assert r[..|r|] == r;
  }

  /** Keeps the earliest messages in a heap of at most limit, then sorts it. */
  method EarliestThreadMessages(messages: seq<ThreadMessage>, limit: nat) returns (ordered: seq<ThreadMessage>)
    requires limit > 0
    ensures ordered == Earliest(messages, limit)
  {
    hide Before, Heap, Earliest, Sorted, Chosen;
    ghost var all := Number(messages);
    NoChoice(all, limit);
    var selected := new Indexed[Least(|messages|, limit)];
    var n := 0;
    assert selected[..0] == [];
    for inputIndex := 0 to |messages|
      invariant n == Least(inputIndex, limit) <= selected.Length == Least(|messages|, limit)
      invariant Heap(selected[..n]) && Chosen(multiset(selected[..n]), all, inputIndex, limit)
    {
      var candidate := Indexed(messages[inputIndex], inputIndex);
      ghost var h := selected[..n];
      if n < limit {
        ChosenMore(multiset(h), all, inputIndex, limit);
        assert multiset(h + [candidate]) == multiset(h) + multiset{candidate};
        Push(selected, n, candidate);
        n := n + 1;
      } else if Before(candidate, selected[0]) {
        ChosenReplaced(h, all, inputIndex, limit);
        assert h[1..] == selected[1..n];
        ReplaceFirst(selected, n, candidate);
      } else {
        ChosenKept(h, all, inputIndex, limit);
      }
    }
    ChoiceIsEarliest(selected[..n], messages, limit);
    ordered := MessagesOf(Sorted(selected[..n]));
  }
}
