/** Cutting a forest of parent links to a depth (bridge/threads.go:73-84,
    240-252). */
module ThreadDepth {
  import opened ThreadLinks

  /** The number of parent steps from i to its root. */
  ghost function Depth(p: links, i: nat): (d: nat)
    requires i < |p| && Acyclic(p)
  {
    HeightPositive(p, i);
    Height(p, i) - 1
  }

  lemma HeightPositive(p: links, i: nat)
    requires i < |p| && Grounded(p, i)
    ensures Height(p, i) >= 1
  {
    assert Up(p, i, 0) == i;
  }

  lemma DepthStep(p: links, i: nat)
    requires i < |p| && Acyclic(p)
    ensures p[i] == -1 ==> Depth(p, i) == 0
    ensures p[i] >= 0 ==> Depth(p, i) == Depth(p, p[i]) + 1
  {
    HeightStep(p, i);
    if p[i] == -1 {
      assert Up(p, -1, 0) == -1;
      HeightIs(p, -1, 0);
    } else {
      HeightPositive(p, p[i]);
    }
  }

  /** The links after cutting, in index order from i on, every node that is too
      deep by then. */
  ghost function CutFrom(p: links, i: nat, limit: nat): (q: links)
    requires i <= |p| && Acyclic(p)
    ensures |q| == |p|
    decreases |p| - i
  {
    if i == |p| then p
    else if Depth(p, i) > limit then
      CutKeepsAcyclic(p, p[i := -1], i);
      CutFrom(p[i := -1], i + 1, limit)
    else CutFrom(p, i + 1, limit)
  }

  /** Cutting a node too deep changes the depth of no node within the limit. */
  lemma CutDepth(p: links, i: nat, j: nat)
    requires Acyclic(p) && i < |p| && j < |p| && Depth(p, j) < Depth(p, i)
    ensures Acyclic(p[i := -1]) && Depth(p[i := -1], j) == Depth(p, j)
  {
    var q := p[i := -1];
    CutKeepsAcyclic(p, q, i);
    if Reaches(p, j, i) {
      ThroughHeight(p, j, i);
    } else {
      UnaffectedHeight(p, q, i, j);
    }
  }

  /** The result is a forest within the limit: every node at most that deep, and
      nodes processed within the limit keep link and depth. */
  lemma {:induction false} CutIsShallow(p: links, i: nat, limit: nat)
    requires i <= |p| && Acyclic(p) && forall j: nat :: j < i ==> Depth(p, j) <= limit
    ensures var q := CutFrom(p, i, limit);
            && Acyclic(q) && (forall j: nat :: j < |q| ==> Depth(q, j) <= limit)
            && (forall j: nat :: j < i ==> q[j] == p[j] && Depth(q, j) == Depth(p, j))
            && (forall j: nat :: i <= j < |q| ==> q[j] == p[j] || q[j] == -1)
    decreases |p| - i
  {
    hide Depth, Acyclic;
    if i < |p| {
      if Depth(p, i) > limit {
        CutOne(p, i, limit);
        CutIsShallow(p[i := -1], i + 1, limit);
      } else {
        CutIsShallow(p, i + 1, limit);
      }
    }
  }

  /** Cutting the first node that is too deep. */
  lemma CutOne(p: links, i: nat, limit: nat)
    requires i < |p| && Acyclic(p) && Depth(p, i) > limit && forall j: nat :: j < i ==> Depth(p, j) <= limit
    ensures var q := p[i := -1];
            && Acyclic(q) && Depth(q, i) == 0
            && (forall j: nat :: j < i ==> Depth(q, j) == Depth(p, j))
  {
    hide Depth;
    var q := p[i := -1];
    CutKeepsAcyclic(p, q, i);
    DepthStep(q, i);
    forall j: nat | j < i ensures Depth(q, j) == Depth(p, j) {
      CutDepth(p, i, j);
    }
  }

  /** Nothing is cut exactly when no node was too deep. */
  lemma {:induction false} CutNothingIff(p: links, i: nat, limit: nat)
    requires i <= |p| && Acyclic(p)
    ensures CutFrom(p, i, limit) == p <==> forall j: nat :: i <= j < |p| ==> Depth(p, j) <= limit
    decreases |p| - i
  {
    if i < |p| {
      if Depth(p, i) > limit {
        var q := p[i := -1];
        CutKeepsAcyclic(p, q, i);
        DepthStep(p, i);
        CutLoses(q, i + 1, i, limit);
      } else {
        CutNothingIff(p, i + 1, limit);
      }
    }
  }

  lemma {:induction false} CutLoses(p: links, i: nat, j: nat, limit: nat)
    requires i <= |p| && Acyclic(p) && j < |p| && p[j] == -1
    ensures CutFrom(p, i, limit)[j] == -1
    decreases |p| - i
  {
    if i < |p| {
      if Depth(p, i) > limit {
        CutKeepsAcyclic(p, p[i := -1], i);
        CutLoses(p[i := -1], i + 1, j, limit);
      } else {
        CutLoses(p, i + 1, j, limit);
      }
    }
  }

  /** The depth of a node, by the recorded depths of its ancestors where they
      are known. */
  method ResolveThreadDepth(index: nat, parents: links, depths: seq<nat>) returns (depth: nat)
    requires Acyclic(parents) && index < |parents| == |depths|
    requires forall j: nat :: j < |depths| && depths[j] > 0 ==> depths[j] == Depth(parents, j)
    ensures depth == Depth(parents, index)
    decreases Depth(parents, index)
  {
    hide Depth;
    DepthStep(parents, index);
    var parent := parents[index];
    if parent < 0 {
      return 0;
    }
    if depths[parent] > 0 {
      return depths[parent] + 1;
    }
    depth := ResolveThreadDepth(parent, parents, depths);
    depth := depth + 1;
  }

  /** The depths recorded before index are right and within the limit. */
  ghost predicate Recorded(p: links, depths: seq<nat>, index: nat, limit: nat)
    requires Acyclic(p)
  {
    && |depths| == |p| && index <= |p|
    && (forall j: nat :: j < index ==> depths[j] == Depth(p, j) <= limit)
    && (forall j: nat :: index <= j < |p| ==> depths[j] == 0)
  }

  lemma RecordCut(p: links, depths: seq<nat>, index: nat, limit: nat)
    requires Acyclic(p) && Recorded(p, depths, index, limit) && index < |p| && Depth(p, index) > limit
    ensures var q := p[index := -1];
            && Acyclic(q) && Recorded(q, depths, index + 1, limit) && q != p
            && CutFrom(p, index, limit) == CutFrom(q, index + 1, limit)
  {
    var q := p[index := -1];
    CutKeepsAcyclic(p, q, index);
    DepthStep(p, index);
    DepthStep(q, index);
    forall j: nat | j < index ensures Depth(q, j) == Depth(p, j) {
      CutDepth(p, index, j);
    }
  }

  /** Records every depth, cutting the link of each node that is too deep. */
  method CutDepths(linked: links, limit: nat) returns (parents: links, depths: seq<nat>, cut: bool)
    requires Acyclic(linked)
    ensures parents == CutFrom(linked, 0, limit) && |depths| == |parents| && Acyclic(parents)
    ensures forall j: nat :: j < |parents| ==> depths[j] == Depth(parents, j) <= limit
    ensures cut <==> exists j: nat :: j < |linked| && Depth(linked, j) > limit
  {
    hide Depth, CutFrom, Acyclic;
    var n := |linked|;
    parents, depths, cut := linked, seq(n, i => 0), false;
    assert Recorded(parents, depths, 0, limit);
    CutDone(linked, limit);
    for index := 0 to n
      invariant |parents| == n && Acyclic(parents) && Recorded(parents, depths, index, limit)
      invariant CutFrom(parents, index, limit) == CutFrom(linked, 0, limit)
      invariant cut ==> CutFrom(linked, 0, limit) != linked
      invariant !cut ==> parents == linked
    {
      var depth := ResolveThreadDepth(index, parents, depths);
      if depth > limit {
        RecordCut(parents, depths, index, limit);
        if !cut {
          CutNothingIff(linked, 0, limit);
        }
        parents := parents[index := -1];
        cut := true;
      } else {
        CutSkips(parents, index, limit);
        depths := depths[index := depth];
      }
    }
    CutDone(parents, limit);
    CutNothingIff(linked, 0, limit);
  }

  lemma CutDone(p: links, limit: nat)
    requires Acyclic(p)
    ensures CutFrom(p, |p|, limit) == p
  {
  }

  lemma CutSkips(p: links, i: nat, limit: nat)
    requires Acyclic(p) && i < |p| && Depth(p, i) <= limit
    ensures CutFrom(p, i, limit) == CutFrom(p, i + 1, limit)
  {
  }
}
