/** Parent links of a thread: breaking cycles and cutting depth
    (bridge/threads.go:58-84, 228-252). */
module ThreadLinks {

  /** For each node the index of its parent, or -1. */
  type links = p: seq<int> | forall i :: 0 <= i < |p| ==> -1 <= p[i] < |p|

  /** The node k steps up from i, or -1 above a root. */
  function Up(p: links, i: int, k: nat): (j: int)
    requires -1 <= i < |p|
    ensures -1 <= j < |p|
    decreases k
  {
    if i < 0 then -1 else if k == 0 then i else Up(p, p[i], k - 1)
  }

  lemma {:induction false} UpMore(p: links, i: int, k: nat, m: nat)
    requires -1 <= i < |p|
    ensures Up(p, i, k + m) == Up(p, Up(p, i, k), m)
    decreases k
  {
    if i >= 0 && k > 0 {
      UpMore(p, p[i], k - 1, m);
    }
  }

  ghost predicate Grounded(p: links, i: int)
    requires -1 <= i < |p|
  {
    exists k: nat :: Up(p, i, k) == -1
  }

  ghost predicate Acyclic(p: links) {
    forall i :: 0 <= i < |p| ==> Grounded(p, i)
  }

  /** The steps from i until above its root. */
  ghost function Height(p: links, i: int): (h: nat)
    requires -1 <= i < |p| && Grounded(p, i)
    ensures Up(p, i, h) == -1
    ensures forall k :: 0 <= k < h ==> Up(p, i, k) >= 0
  {
    Least(p, i, 0)
  }

  ghost function Least(p: links, i: int, from: nat): (h: nat)
    requires -1 <= i < |p| && Grounded(p, i)
    requires forall k :: 0 <= k < from ==> Up(p, i, k) >= 0
    ensures Up(p, i, h) == -1
    ensures forall k :: 0 <= k < h ==> Up(p, i, k) >= 0
    decreases Bound(p, i) - from
  {
    if Up(p, i, from) < 0 then from else Least(p, i, from + 1)
  }

  ghost function Bound(p: links, i: int): (k: nat)
    requires -1 <= i < |p| && Grounded(p, i)
    ensures Up(p, i, k) == -1
  {
    var k: nat :| Up(p, i, k) == -1;
    k
  }

  lemma HeightIs(p: links, i: int, h: nat)
    requires -1 <= i < |p| && Up(p, i, h) == -1 && (h > 0 ==> Up(p, i, h - 1) >= 0)
    ensures Grounded(p, i) && Height(p, i) == h
  {
    assert Grounded(p, i);
    var g := Height(p, i);
    if g < h {
      UpMore(p, i, g, h - 1 - g);
    }
  }

  lemma HeightStep(p: links, i: int)
    requires 0 <= i < |p| && Grounded(p, i)
    ensures Grounded(p, p[i]) && Height(p, i) == 1 + Height(p, p[i])
  {
    var h := Height(p, i);
    assert Up(p, i, 0) == i;
    assert Up(p, p[i], h - 1) == Up(p, i, h);
    if h > 1 {
      assert Up(p, p[i], h - 2) == Up(p, i, h - 1);
    }
    HeightIs(p, p[i], h - 1);
  }

  /** i lies on the way up from j. */
  ghost predicate Reaches(p: links, j: int, i: nat)
    requires -1 <= j < |p| && i < |p|
  {
    exists k: nat :: Up(p, j, k) == i
  }

  // ---- One link more, one link less ----

  /** Without passing i, a walk does not notice the link of i. */
  lemma {:induction false} SameWalk(p: links, q: links, i: nat, j: int, k: nat)
    requires |p| == |q| && i < |p| && -1 <= j < |p|
    requires forall x :: 0 <= x < |p| && x != i ==> p[x] == q[x]
    requires forall m :: 0 <= m < k ==> Up(p, j, m) != i
    ensures Up(q, j, k) == Up(p, j, k)
    decreases k
  {
    if j >= 0 && k > 0 {
      assert Up(p, j, 0) == j;
      forall m | 0 <= m < k - 1 ensures Up(p, p[j], m) != i {
        assert Up(p, j, m + 1) == Up(p, p[j], m);
      }
      SameWalk(p, q, i, p[j], k - 1);
    }
  }

  /** A walk that never passes i keeps its height whatever i links to. */
  lemma UnaffectedHeight(p: links, q: links, i: nat, j: int)
    requires |p| == |q| && i < |p| && -1 <= j < |p| && Grounded(p, j) && !Reaches(p, j, i)
    requires forall x :: 0 <= x < |p| && x != i ==> p[x] == q[x]
    ensures Grounded(q, j) && Height(q, j) == Height(p, j) && !Reaches(q, j, i)
  {
    var h := Height(p, j);
    SameWalk(p, q, i, j, h);
    if h > 0 {
      SameWalk(p, q, i, j, h - 1);
    }
    HeightIs(q, j, h);
    forall k: nat ensures Up(q, j, k) != i {
      SameWalk(p, q, i, j, k);
    }
  }

  /** Walks that reach i go on as i does. */
  lemma ThroughHeight(p: links, j: int, i: nat)
    requires -1 <= j < |p| && i < |p| && Grounded(p, j) && Reaches(p, j, i)
    ensures Grounded(p, i) && Height(p, j) >= Height(p, i)
    ensures j != i ==> Height(p, j) > Height(p, i)
  {
    var k: nat :| Up(p, j, k) == i;
    var h := Height(p, j);
    if k >= h {
      UpMore(p, j, h, k - h);
    }
    UpMore(p, j, k, h - k);
    if h > k {
      UpMore(p, j, k, h - 1 - k);
    }
    HeightIs(p, i, h - k);
    assert Up(p, j, 0) == j;
  }

  /** Linking a root to a node that does not lead back to it makes no cycle. */
  lemma LinkKeepsAcyclic(p: links, q: links, i: nat)
    requires |p| == |q| && i < |p| && Acyclic(p) && p[i] == -1
    requires forall x :: 0 <= x < |p| && x != i ==> p[x] == q[x]
    requires q[i] >= 0 && !Reaches(p, q[i], i)
    ensures Acyclic(q)
  {
    UnaffectedHeight(p, q, i, q[i]);
    assert Up(q, i, 1 + Height(q, q[i])) == -1;
    assert Grounded(q, i);
    forall j | 0 <= j < |q| ensures Grounded(q, j) {
      if Reaches(p, j, i) {
        FirstReach(p, q, j, i);
      } else {
        UnaffectedHeight(p, q, i, j);
      }
    }
  }

  lemma FirstReach(p: links, q: links, j: nat, i: nat)
    requires |p| == |q| && i < |p| && j < |p| && Reaches(p, j, i) && Grounded(q, i)
    requires forall x :: 0 <= x < |p| && x != i ==> p[x] == q[x]
    ensures Grounded(q, j)
  {
    var k := First(p, j, i);
    SameWalk(p, q, i, j, k);
    UpMore(q, j, k, Height(q, i));
  }

  /** The first step at which the walk from j is at i. */
  lemma First(p: links, j: int, i: nat) returns (k: nat)
    requires -1 <= j < |p| && i < |p| && Reaches(p, j, i)
    ensures Up(p, j, k) == i && forall m :: 0 <= m < k ==> Up(p, j, m) != i
  {
    var n: nat :| Up(p, j, n) == i;
    k := 0;
    while Up(p, j, k) != i
      invariant k <= n && forall m :: 0 <= m < k ==> Up(p, j, m) != i
      decreases n - k
    {
      k := k + 1;
    }
  }

  /** Cutting a link makes no cycle. */
  lemma CutKeepsAcyclic(p: links, q: links, i: nat)
    requires |p| == |q| && i < |p| && Acyclic(p) && q[i] == -1
    requires forall x :: 0 <= x < |p| && x != i ==> p[x] == q[x]
    ensures Acyclic(q)
  {
    assert Up(q, i, 1) == -1;
    forall j | 0 <= j < |q| ensures Grounded(q, j) {
      if Reaches(p, j, i) {
        FirstReach(p, q, j, i);
      } else {
        UnaffectedHeight(p, q, i, j);
      }
    }
  }

  // ---- Cycles ----

  /** The walk of k steps from i comes back to i and never rises above it. */
  ghost predicate ReturnsBelow(p: links, i: nat, k: nat)
    requires i < |p|
  {
    Up(p, i, k) == i && forall m :: 0 <= m <= k ==> 0 <= Up(p, i, m) <= i
  }

  /** i has the highest index of the cycle it lies on. */
  ghost predicate TopOfCycle(p: links, i: nat)
    requires i < |p|
  {
    exists k: nat :: k >= 1 && ReturnsBelow(p, i, k)
  }

  /** The links with exactly the top of every cycle unlinked. */
  ghost function Broken(p: links): (q: links)
    ensures |q| == |p|
  {
    seq(|p|, i requires 0 <= i < |p| => if TopOfCycle(p, i) then -1 else p[i])
  }

  lemma {:induction false} ForeverBelow(p: links, i: nat, k: nat, m: nat)
    requires i < |p| && k >= 1 && ReturnsBelow(p, i, k)
    ensures 0 <= Up(p, i, m) <= i
    decreases m
  {
    if m > k {
      UpMore(p, i, k, m - k);
      ForeverBelow(p, i, k, m - k);
    }
  }

  /** The links before index i broken, the others not set yet. */
  ghost predicate BrokenBelow(p: links, q: links, i: nat) {
    && |q| == |p| && i <= |p|
    && (forall j :: 0 <= j < i ==> q[j] == if TopOfCycle(p, j) then -1 else p[j])
    && (forall j :: i <= j < |p| ==> q[j] == -1)
  }

  /** The walk over the links set so far is a walk over the candidates. */
  lemma {:induction false} WalkIsCandidate(p: links, q: links, i: nat, j: int, k: nat)
    requires BrokenBelow(p, q, i) && i < |p| && -1 <= j < |p| && Up(q, j, k) >= 0
    ensures Up(p, j, k) == Up(q, j, k)
    ensures forall m :: 0 <= m < k ==> 0 <= Up(p, j, m) < i
    decreases k
  {
    if k > 0 {
      assert j >= 0 && q[j] >= 0;
      WalkIsCandidate(p, q, i, q[j], k - 1);
      forall m | 0 <= m < k ensures 0 <= Up(p, j, m) < i {
        if m > 0 {
          assert Up(p, j, m) == Up(p, p[j], m - 1);
        }
      }
    }
  }

  /** The search from the candidate parent meets i exactly when i is the top of
      a candidate cycle. */
  lemma ClosesIff(p: links, q: links, i: nat)
    requires BrokenBelow(p, q, i) && i < |p| && p[i] >= 0
    ensures Reaches(q, p[i], i) <==> TopOfCycle(p, i)
  {
    if Reaches(q, p[i], i) {
      var k: nat :| Up(q, p[i], k) == i;
      WalkIsCandidate(p, q, i, p[i], k);
      forall m | 0 <= m <= k + 1 ensures 0 <= Up(p, i, m) <= i {
        if 0 < m <= k {
          assert Up(p, i, m) == Up(p, p[i], m - 1);
        }
      }
      assert ReturnsBelow(p, i, k + 1);
    }
    if TopOfCycle(p, i) {
      var k: nat :| k >= 1 && ReturnsBelow(p, i, k);
      assert Up(p, p[i], k - 1) == i;
      var first := First(p, p[i], i);
      CycleKept(p, q, i, first, 0);
    }
  }

  /** Below its top a cycle keeps its links. */
  lemma {:induction false} CycleKept(p: links, q: links, i: nat, first: nat, m: nat)
    requires BrokenBelow(p, q, i) && i < |p| && p[i] >= 0 && TopOfCycle(p, i) && m <= first
    requires Up(p, p[i], first) == i && forall n :: 0 <= n < first ==> Up(p, p[i], n) != i
    ensures Up(q, Up(p, p[i], m), first - m) == i
    decreases first - m
  {
    if m < first {
      var j := Up(p, p[i], m);
      var k: nat :| k >= 1 && ReturnsBelow(p, i, k);
      ForeverBelow(p, i, k, m + 1);
      assert Up(p, i, m + 1) == j;
      UpMore(p, p[i], m, first - m);
      NotTop(p, j, i, first - m);
      assert q[j] == p[j];
      UpMore(p, p[i], m, 1);
      assert Up(p, j, 1) == Up(p, p[j], 0) == p[j];
      CycleKept(p, q, i, first, m + 1);
    } else {
      assert Up(p, p[i], m) == i;
    }
  }

  lemma NotTop(p: links, j: nat, i: nat, k: nat)
    requires j < i < |p| && Up(p, j, k) == i
    ensures !TopOfCycle(p, j)
  {
    if n: nat :| n >= 1 && ReturnsBelow(p, j, n) {
      ForeverBelow(p, j, n, k);
    }
  }

  /** Whether the walk up from parent meets child. */
  method WouldCycle(child: nat, parent: int, parents: links) returns (cycle: bool)
    requires child < |parents| && -1 <= parent < |parents| && Acyclic(parents)
    ensures cycle <==> Reaches(parents, parent, child)
  {
    var here := parent;
    ghost var k: nat := 0;
    assert Grounded(parents, -1) by { assert Up(parents, -1, 0) == -1; }
    while here >= 0
      invariant -1 <= here < |parents| && Up(parents, parent, k) == here && Grounded(parents, here)
      invariant forall m :: 0 <= m < k ==> Up(parents, parent, m) != child
      decreases Height(parents, here)
    {
      if here == child {
        return true;
      }
      HeightStep(parents, here);
      UpMore(parents, parent, k, 1);
      here := parents[here];
      k := k + 1;
    }
    forall m: nat ensures Up(parents, parent, m) != child {
      if m >= k {
        UpMore(parents, parent, k, m - k);
      }
    }
    cycle := false;
  }

  /** Links every node to its candidate parent unless that closes a cycle. */
  method BreakCycles(candidates: links) returns (parents: links, cycle: bool)
    ensures parents == Broken(candidates) && Acyclic(parents)
    ensures cycle <==> exists i: nat :: i < |candidates| && TopOfCycle(candidates, i)
  {
    var n := |candidates|;
    parents := seq(n, i => -1);
    cycle := false;
    forall i | 0 <= i < n ensures Grounded(parents, i) {
      assert Up(parents, i, 1) == -1;
    }
    for index := 0 to n
      invariant BrokenBelow(candidates, parents, index) && Acyclic(parents)
      invariant cycle <==> exists i: nat :: i < index && TopOfCycle(candidates, i)
    {
      var candidate := candidates[index];
      if candidate >= 0 {
        ClosesIff(candidates, parents, index);
        var closes := WouldCycle(index, candidate, parents);
        if closes {
          cycle := true;
        } else {
          ghost var before := parents;
          parents := parents[index := candidate];
          LinkKeepsAcyclic(before, parents, index);
        }
      } else {
        NoCycleAtRoot(candidates, index);
      }
    }
  }

  lemma NoCycleAtRoot(p: links, i: nat)
    requires i < |p| && p[i] == -1
    ensures !TopOfCycle(p, i)
  {
    forall k: nat | k >= 1 ensures Up(p, i, k) == -1 {
      assert Up(p, -1, k - 1) == -1;
    }
  }

  lemma {:induction false} Around(p: links, i: nat, k: nat, m: nat) returns (n: nat)
    requires i < |p| && k >= 1 && Up(p, i, k) == i
    ensures n < k && Up(p, i, n) == Up(p, i, m)
    decreases m
  {
    if m < k {
      n := m;
    } else {
      UpMore(p, i, k, m - k);
      n := Around(p, i, k, m - k);
    }
  }

  lemma StaysUp(p: links, i: nat, k: nat, m: nat)
    requires i < |p| && k >= 1 && Up(p, i, k) == i && m <= k
    ensures Up(p, i, m) >= 0
  {
    UpMore(p, i, m, k - m);
  }

  /** Every cycle of the candidates has exactly one top: one of its nodes loses
      its link, and all its other nodes keep theirs. */
  lemma CycleLosesOne(p: links, i: nat, k: nat) returns (top: nat)
    requires i < |p| && k >= 1 && Up(p, i, k) == i
    ensures top < |p| && Reaches(p, i, top) && Broken(p)[top] == -1 && p[top] >= 0
    ensures forall m: nat :: 0 <= Up(p, i, m) && (Up(p, i, m) != top ==> Broken(p)[Up(p, i, m)] == p[Up(p, i, m)])
  {
    var at: nat := 0;
    for m := 1 to k
      invariant at < k && forall n :: 0 <= n < m ==> Up(p, i, n) <= Up(p, i, at)
    {
      if Up(p, i, m) > Up(p, i, at) {
        at := m;
      }
    }
    StaysUp(p, i, k, at);
    top := Up(p, i, at);
    forall n | 0 <= n <= k ensures 0 <= Up(p, top, n) <= top {
      UpMore(p, i, at, n);
      var r := Around(p, i, k, at + n);
      StaysUp(p, i, k, r);
    }
    UpMore(p, i, at, k);
    UpMore(p, i, k, at);
    assert ReturnsBelow(p, top, k);
    NoCycleAtRootUnless(p, top);
    forall m: nat ensures 0 <= Up(p, i, m) && (Up(p, i, m) != top ==> Broken(p)[Up(p, i, m)] == p[Up(p, i, m)]) {
      var r := Around(p, i, k, m);
      StaysUp(p, i, k, r);
      var j := Up(p, i, r);
      if j != top {
        var on := if r <= at then at - r else at + k - r;
        UpMore(p, i, r, on);
        NotTop(p, j, top, on);
      }
    }
  }

  lemma NoCycleAtRootUnless(p: links, i: nat)
    requires i < |p| && TopOfCycle(p, i)
    ensures p[i] >= 0
  {
    if p[i] == -1 {
      NoCycleAtRoot(p, i);
    }
  }

  /** i lies on a cycle and has the highest index that a walk from it meets. */
  ghost predicate HighestOfCycle(p: links, i: nat)
    requires i < |p|
  {
    && (exists k: nat :: k >= 1 && Up(p, i, k) == i)
    && forall m: nat :: Up(p, i, m) <= i
  }

  /** Exactly the node of highest index of each cycle loses its link. */
  lemma LosesLinkIff(p: links, i: nat)
    requires i < |p|
    ensures Broken(p)[i] != p[i] <==> HighestOfCycle(p, i)
  {
    if TopOfCycle(p, i) {
      NoCycleAtRootUnless(p, i);
      var k: nat :| k >= 1 && ReturnsBelow(p, i, k);
      forall m: nat ensures Up(p, i, m) <= i {
        ForeverBelow(p, i, k, m);
      }
    }
    if HighestOfCycle(p, i) {
      var k: nat :| k >= 1 && Up(p, i, k) == i;
      forall m | 0 <= m <= k ensures 0 <= Up(p, i, m) <= i {
        StaysUp(p, i, k, m);
      }
      assert ReturnsBelow(p, i, k);
    }
  }
}
