/** The walk over a message body, and how its list of attachments compares with
    the projection of the structure (bridge/mime.go:322-453). */
module BodyWalk {
  import opened AttachmentProjection

  function Flagged(p: Progress): Progress {
    p.(truncation := p.truncation.(mimeParts := true))
  }

  /** Parses an entity: too deep is left out before it counts as a part, and the
      part limit is checked before every part and again before the end of a
      multipart. */
  function Body(e: Entity, depth: nat, p: Progress, limits: Limits): Outcome
    decreases e, 1, 0
  {
    if depth > limits.maxDepth then Going(Deep(p))
    else if p.parts >= limits.maxParts then LimitHit(Flagged(p))
    else
      var q := p.(parts := p.parts + 1);
      match e
      case Malformed => BadMime
      case Part(qualified, entry, cut, content) =>
        if qualified then Going(Append(q, entry, cut, limits)) else if content == Rfc822 then Going(Deep(q)) else Going(q)
      case Container(qualified, entry, cut, children) =>
        if qualified then Going(Append(q, entry, cut, limits)) else BodyAll(children, depth + 1, q, limits)
  }

  function BodyAll(es: seq<Entity>, depth: nat, p: Progress, limits: Limits): Outcome
    decreases es, 0, |es|
  {
    if p.parts >= limits.maxParts then LimitHit(Flagged(p))
    else if es == [] then Going(p)
    else
      match Body(es[0], depth, p, limits)
      case Going(q) => BodyAll(es[1..], depth, q, limits)
      case LimitHit(q) => LimitHit(q)
      case BadMime => BadMime
  }

  /** What the check at the end of a multipart adds to an outcome. */
  function Closed(o: Outcome, multipart: bool, limits: Limits): Outcome {
    if o.Going? && multipart && o.p.parts >= limits.maxParts then LimitHit(Flagged(o.p)) else o
  }

  /** The collector of the body walk. */
  class Collector {
    const limits: Limits
    var parts: nat
    var attachments: seq<Entry>
    var truncation: Truncation

    ghost function State(): Progress
      reads this
    {
      Progress(parts, attachments, truncation)
    }

    constructor (l: Limits)
      ensures limits == l && State() == FRESH
    {
      limits, parts, attachments, truncation := l, 0, [], Truncation(false, false, false);
    }

    method AppendAttachment(entry: Entry, cut: bool)
      modifies this`attachments, this`truncation
      ensures State() == Append(old(State()), entry, cut, limits)
    {
      if |attachments| >= limits.maxAttachments {
        truncation := truncation.(attachments := true);
        return;
      }
      if cut {
        truncation := truncation.(attachments := true);
      }
      attachments := attachments + [entry];
    }

    method ParseEntity(e: Entity, depth: nat) returns (status: Status)
      modifies this`parts, this`attachments, this`truncation
      ensures Reached(Body(e, depth, old(State()), limits), status, State())
      decreases e
    {
      if depth > limits.maxDepth {
        truncation := truncation.(mimeDepth := true);
        return Continue;
      }
      if parts >= limits.maxParts {
        truncation := truncation.(mimeParts := true);
        return Stop;
      }
      parts := parts + 1;
      match e {
        case Malformed =>
          return Fail;
        case Part(qualified, entry, cut, content) =>
          if qualified {
            AppendAttachment(entry, cut);
          } else if content == Rfc822 {
            truncation := truncation.(mimeDepth := true);
          }
          return Continue;
        case Container(qualified, entry, cut, children) =>
          if qualified {
            AppendAttachment(entry, cut);
            return Continue;
          }
          status := ParseParts(children, depth + 1);
      }
    }

    /** The parts of a multipart, the limit checked before each and at the end. */
    method ParseParts(children: seq<Entity>, depth: nat) returns (status: Status)
      modifies this`parts, this`attachments, this`truncation
      ensures Reached(BodyAll(children, depth, old(State()), limits), status, State())
      decreases children
    {
      ghost var whole := BodyAll(children, depth, State(), limits);
      var i := 0;
      assert children[0..] == children;
      while true
        invariant i <= |children| && BodyAll(children[i..], depth, State(), limits) == whole
        decreases |children| - i
      {
        if parts >= limits.maxParts {
          truncation := truncation.(mimeParts := true);
          return Stop;
        }
        if i == |children| {
          return Continue;
        }
        assert children[i..][0] == children[i] && children[i..][1..] == children[i + 1..];
        status := ParseEntity(children[i], depth);
        if status != Continue {
          return;
        }
        i := i + 1;
      }
    }
  }

  ghost predicate WithinDepth(vs: seq<Visit>, limits: Limits) {
    forall i :: 0 <= i < |vs| ==> vs[i].depth <= limits.maxDepth
  }

  lemma WithinParts(a: seq<Visit>, b: seq<Visit>, limits: Limits)
    requires WithinDepth(a + b, limits)
    ensures WithinDepth(a, limits) && WithinDepth(b, limits)
  {
    assert forall i :: 0 <= i < |a| ==> a[i] == (a + b)[i];
    assert forall i :: 0 <= i < |b| ==> b[i] == (a + b)[|a| + i];
  }

  lemma {:induction false} BodyIs(e: Entity, depth: nat, p: Progress, limits: Limits)
    requires !limits.global && p.parts < limits.maxParts && WithinDepth(Visited(e, depth, limits), limits)
    ensures Body(e, depth, p, limits) == Closed(TakeAll(Visited(e, depth, limits), p, limits), Enters(e, depth, limits), limits)
    decreases e, 1, 0
  {
    var v := Visit(e, depth);
    assert Visited(e, depth, limits)[0].depth == depth <= limits.maxDepth;
    var inner := if Enters(e, depth, limits) then VisitedAll(e.children, depth + 1, limits) else [];
    TakeFirst(v, inner, p, limits);
    if Enters(e, depth, limits) {
      WithinParts([v], inner, limits);
      BodyAllIs(e.children, depth + 1, p.(parts := p.parts + 1), limits);
    }
  }

  lemma {:induction false} BodyAllIs(es: seq<Entity>, depth: nat, p: Progress, limits: Limits)
    requires !limits.global && WithinDepth(VisitedAll(es, depth, limits), limits)
    ensures BodyAll(es, depth, p, limits) == Closed(TakeAll(VisitedAll(es, depth, limits), p, limits), true, limits)
    decreases es, 0, |es|
  {
    hide Take, Body, Visited, WithinDepth;
    if es != [] && p.parts < limits.maxParts {
      var mine, later := Visited(es[0], depth, limits), VisitedAll(es[1..], depth, limits);
      WithinParts(mine, later, limits);
      TakeConcat(mine, later, p, limits);
      BodyIs(es[0], depth, p, limits);
      var o := TakeAll(mine, p, limits);
      if o.Going? {
        BodyAllIs(es[1..], depth, o.p, limits);
      }
    }
  }

  predicate LooseGlobal(v: Visit) {
    v.entity.Part? && !v.entity.qualified && v.entity.content == Global
  }

  ghost predicate AnyGlobal(vs: seq<Visit>) {
    exists i :: 0 <= i < |vs| && LooseGlobal(vs[i])
  }

  /** Where no entity is too deep, the body walk fails exactly when the
      projection does and lists the same attachments. Its part flag is also set
      when the parts fill the limit exactly and the message is a multipart; its
      depth flag is not set by an embedded message/global. */
  lemma BodyListsTheSame(e: Entity, limits: Limits)
    requires limits.maxParts >= 1 && WithinDepth(Visited(e, 0, limits), limits)
    ensures var vs := Visited(e, 0, limits);
            var s := Summary(vs, FRESH, limits.(global := true));
            var b := Body(e, 0, FRESH, limits.(global := false));
            && (b.BadMime? <==> s.BadMime?)
            && (!b.BadMime? ==>
                  && b.p.attachments == s.p.attachments && b.p.truncation.attachments == s.p.truncation.attachments
                  && (s.p.truncation.mimeParts <==> |vs| > limits.maxParts)
                  && (b.p.truncation.mimeParts <==> |vs| > limits.maxParts || (|vs| == limits.maxParts && Enters(e, 0, limits)))
                  && (s.p.truncation.mimeDepth <==> b.p.truncation.mimeDepth || AnyGlobal(Prefix(vs, limits.maxParts))))
  {
    hide Visited, Body, TakeAll, Items, First, AnyCut, Bad, Omits, AnyGlobal, Embedded;
    var with, without := limits.(global := true), limits.(global := false);
    var vs := Visited(e, 0, limits);
    AnyDepthVisits(e, 0, limits, without);
    BodyIs(e, 0, FRESH, without);
    TakeAllIs(vs, FRESH, without);
    var prefix := Prefix(vs, limits.maxParts);
    GlobalOnly(prefix, limits);
  }

  /** The depth flag is all that an embedded message/global can change. */
  lemma GlobalOnly(vs: seq<Visit>, limits: Limits)
    requires WithinDepth(vs, limits)
    ensures var with, without := limits.(global := true), limits.(global := false);
            && Items(vs, with) == Items(vs, without) && (AnyBad(vs, with) <==> AnyBad(vs, without))
            && (AnyOmits(vs, with) <==> AnyOmits(vs, without) || AnyGlobal(vs))
  {
    var with, without := limits.(global := true), limits.(global := false);
    ItemsWider(vs, with, without);
    forall i | 0 <= i < |vs|
      ensures Bad(vs[i], with) <==> Bad(vs[i], without)
      ensures Omits(vs[i], with) <==> Omits(vs[i], without) || LooseGlobal(vs[i])
    {
    }
  }
}
