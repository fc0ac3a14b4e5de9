/** The order in which the entities of a message are visited, said by their
    places in its tree (bridge/attachment_projection.go:38-128). */
module EntityPaths {
  import opened AttachmentProjection

  /** The place of an entity: which child to take at each step from the top. */
  type path = seq<nat>

  /** The walk reaches the place: every entity above it is a container within
      the depth limit that is not itself listed as an attachment. */
  predicate Reached(e: Entity, p: path, depth: nat, limits: Limits)
    decreases p
  {
    p == [] ||
    (depth <= limits.maxDepth && e.Container? && !e.qualified && p[0] < |e.children| && Reached(e.children[p[0]], p[1..], depth + 1, limits))
  }

  function EntityAt(e: Entity, p: path, depth: nat, limits: Limits): Entity
    requires Reached(e, p, depth, limits)
    decreases p
  {
    if p == [] then e else EntityAt(e.children[p[0]], p[1..], depth + 1, limits)
  }

  /** An entity comes before those inside it, and those inside an earlier one
      before those inside a later one. */
  predicate Earlier(p: path, q: path) {
    q != [] && (p == [] || p[0] < q[0] || (p[0] == q[0] && Earlier(p[1..], q[1..])))
  }

  ghost predicate InOrder(ps: seq<path>) {
    forall i, j :: 0 <= i < j < |ps| ==> Earlier(ps[i], ps[j])
  }

  /** The visits are those of the entities at the places. */
  ghost predicate VisitsAt(vs: seq<Visit>, e: Entity, ps: seq<path>, depth: nat, limits: Limits) {
    && |vs| == |ps|
    && forall i :: 0 <= i < |ps| ==>
         Reached(e, ps[i], depth, limits) && vs[i] == Visit(EntityAt(e, ps[i], depth, limits), depth + |ps[i]|)
  }

  function Under(k: nat, ps: seq<path>): (r: seq<path>)
    ensures |r| == |ps| && forall i :: 0 <= i < |r| ==> r[i] == [k] + ps[i]
  {
    seq(|ps|, i requires 0 <= i < |ps| => [k] + ps[i])
  }

  function Places(e: Entity, depth: nat, limits: Limits): seq<path>
    decreases e, 1, 0
  {
    [[]] + if Enters(e, depth, limits) then PlacesFrom(e.children, 0, depth + 1, limits) else []
  }

  function PlacesFrom(es: seq<Entity>, k: nat, depth: nat, limits: Limits): seq<path>
    decreases es, 0, |es|
  {
    if es == [] then [] else Under(k, Places(es[0], depth, limits)) + PlacesFrom(es[1..], k + 1, depth, limits)
  }

  /** Places inside the children es, numbered from k, in order. */
  ghost predicate Inside(vs: seq<Visit>, es: seq<Entity>, k: nat, ps: seq<path>, depth: nat, limits: Limits) {
    && |vs| == |ps| && InOrder(ps)
    && (forall i :: 0 <= i < |ps| ==> InChild(vs[i], es, k, ps[i], depth, limits))
    && forall c: nat, p: path :: c < |es| && Reached(es[c], p, depth, limits) ==> [k + c] + p in ps
  }

  ghost predicate InChild(v: Visit, es: seq<Entity>, k: nat, p: path, depth: nat, limits: Limits) {
    && p != [] && k <= p[0] < k + |es| && Reached(es[p[0] - k], p[1..], depth, limits)
    && v == Visit(EntityAt(es[p[0] - k], p[1..], depth, limits), depth + |p| - 1)
  }

  lemma UnderInOrder(k: nat, ps: seq<path>)
    requires InOrder(ps)
    ensures InOrder(Under(k, ps))
  {
    var us := Under(k, ps);
    forall i, j | 0 <= i < j < |us| ensures Earlier(us[i], us[j]) {
      assert us[i][1..] == ps[i] && us[j][1..] == ps[j];
    }
  }

  lemma JoinInOrder(a: seq<path>, b: seq<path>, k: nat)
    requires InOrder(a) && InOrder(b)
    requires (forall p :: p in a ==> p != [] && p[0] == k) && forall p :: p in b ==> p != [] && p[0] > k
    ensures InOrder(a + b)
  {
    var all := a + b;
    forall i, j | 0 <= i < j < |all| ensures Earlier(all[i], all[j]) {
      if i < |a| <= j {
        assert all[i] in a && all[j] in b;
      }
    }
  }

  /** What is claimed of one entity. */
  ghost predicate Walked(vs: seq<Visit>, e: Entity, ps: seq<path>, depth: nat, limits: Limits) {
    && VisitsAt(vs, e, ps, depth, limits) && InOrder(ps)
    && forall p: path :: Reached(e, p, depth, limits) ==> p in ps
  }

  /** The first of the children before the rest. */
  lemma ChildFirst(es: seq<Entity>, k: nat, depth: nat, limits: Limits, vs: seq<Visit>, ps: seq<path>, ws: seq<Visit>, qs: seq<path>)
    requires es != [] && Walked(vs, es[0], ps, depth, limits) && Inside(ws, es[1..], k + 1, qs, depth, limits)
    ensures Inside(vs + ws, es, k, Under(k, ps) + qs, depth, limits)
  {
    hide Reached, EntityAt, Earlier;
    var us := Under(k, ps);
    var all, places := vs + ws, us + qs;
    UnderInOrder(k, ps);
    forall p | p in qs ensures p != [] && p[0] > k {
      var i :| 0 <= i < |qs| && qs[i] == p;
      assert InChild(ws[i], es[1..], k + 1, qs[i], depth, limits);
    }
    JoinInOrder(us, qs, k);
    forall i | 0 <= i < |places| ensures InChild(all[i], es, k, places[i], depth, limits) {
      if i < |us| {
        assert places[i] == [k] + ps[i] && places[i][1..] == ps[i] && all[i] == vs[i];
      } else {
        assert InChild(ws[i - |us|], es[1..], k + 1, qs[i - |us|], depth, limits);
        assert places[i] == qs[i - |us|] && all[i] == ws[i - |us|];
        assert es[1..][places[i][0] - (k + 1)] == es[places[i][0] - k];
      }
    }
    forall c: nat, p: path | c < |es| && Reached(es[c], p, depth, limits) ensures [k + c] + p in places {
      if c == 0 {
        var i :| 0 <= i < |ps| && ps[i] == p;
        assert us[i] == [k] + p;
      } else {
        assert es[1..][c - 1] == es[c];
        assert [k + 1 + (c - 1)] + p in qs;
      }
    }
  }

  lemma {:induction false} ChildrenWalked(es: seq<Entity>, k: nat, depth: nat, limits: Limits)
    ensures Inside(VisitedAll(es, depth, limits), es, k, PlacesFrom(es, k, depth, limits), depth, limits)
    decreases es, 0, |es|
  {
    hide Visited, Places, Walked, Inside;
    if es == [] {
      NothingInside(k, depth, limits);
    } else {
      EntityWalked(es[0], depth, limits);
      ChildrenWalked(es[1..], k + 1, depth, limits);
      ChildFirst(es, k, depth, limits, Visited(es[0], depth, limits), Places(es[0], depth, limits),
                 VisitedAll(es[1..], depth, limits), PlacesFrom(es[1..], k + 1, depth, limits));
    }
  }

  lemma NothingInside(k: nat, depth: nat, limits: Limits)
    ensures Inside([], [], k, [], depth, limits)
  {
  }

  /** The entity itself before all inside it. */
  lemma TopFirst(e: Entity, depth: nat, limits: Limits, ws: seq<Visit>, qs: seq<path>)
    requires if Enters(e, depth, limits) then Inside(ws, e.children, 0, qs, depth + 1, limits) else ws == [] && qs == []
    ensures Walked([Visit(e, depth)] + ws, e, [[]] + qs, depth, limits)
  {
    hide Earlier;
    var vs, ps := [Visit(e, depth)] + ws, [[]] + qs;
    forall i | 0 < i < |ps|
      ensures ps[i] != [] && Reached(e, ps[i], depth, limits) && vs[i] == Visit(EntityAt(e, ps[i], depth, limits), depth + |ps[i]|)
    {
      assert InChild(ws[i - 1], e.children, 0, qs[i - 1], depth + 1, limits);
    }
    forall i, j | 0 <= i < j < |ps| ensures Earlier(ps[i], ps[j]) {
      if i == 0 {
        TopEarlier(ps[j]);
      }
    }
    forall p: path | Reached(e, p, depth, limits) ensures p in ps {
      if p != [] {
        var c := p[0];
        assert Reached(e.children[c], p[1..], depth + 1, limits);
        assert [0 + c] + p[1..] in qs && [0 + c] + p[1..] == p;
      }
    }
  }

  lemma TopEarlier(q: path)
    requires q != []
    ensures Earlier([], q)
  {
  }

  /** The visits are those of exactly the places the walk reaches, in the order
      of their places, whatever the tree. */
  lemma {:induction false} EntityWalked(e: Entity, depth: nat, limits: Limits)
    ensures Walked(Visited(e, depth, limits), e, Places(e, depth, limits), depth, limits)
    decreases e, 1, 0
  {
    hide Walked, Inside;
    if Enters(e, depth, limits) {
      ChildrenWalked(e.children, 0, depth + 1, limits);
      TopFirst(e, depth, limits, VisitedAll(e.children, depth + 1, limits), PlacesFrom(e.children, 0, depth + 1, limits));
    } else {
      TopFirst(e, depth, limits, [], []);
    }
  }
}
