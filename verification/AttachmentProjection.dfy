/** Listing the attachments of a message by its structure, under part, depth
    and count limits (bridge/attachment_projection.go:38-128), and the walk over
    the message body that lists the same ones (bridge/mime.go:322-453).

    Each node comes classified: malformed, or attachment-qualified or not, with
    its entry after the field limits and whether any field was cut. */
module AttachmentProjection {
  import opened Octets
  import opened Sequences
  import opened Wrappers

  datatype Entry = Entry(filename: bytes, contentType: bytes, disposition: bytes, transferOctets: Option<nat>, declaredSize: Option<nat>)

  /** Of a single part: text or data, or an embedded message of either type. */
  datatype Content = Data | Rfc822 | Global

  datatype Entity =
    | Malformed
    | Part(qualified: bool, entry: Entry, cut: bool, content: Content)
    | Container(qualified: bool, entry: Entry, cut: bool, children: seq<Entity>)

  /** global says whether an embedded message/global counts as left out. */
  datatype Limits = Limits(maxParts: nat, maxDepth: nat, maxAttachments: nat, global: bool)

  /** An embedded message whose inside is left out. */
  predicate Embedded(content: Content, limits: Limits) {
    content == Rfc822 || (content == Global && limits.global)
  }

  /** A visited entity and its depth. */
  datatype Visit = Visit(entity: Entity, depth: nat)

  // ---- The order of visits ----

  predicate Enters(e: Entity, depth: nat, limits: Limits) {
    depth <= limits.maxDepth && e.Container? && !e.qualified
  }

  /** The entities visited, in depth-first order: nothing inside an entity that
      is too deep, malformed or listed as an attachment. */
  function Visited(e: Entity, depth: nat, limits: Limits): (r: seq<Visit>)
    ensures |r| >= 1 && r[0] == Visit(e, depth)
    decreases e, 1, 0
  {
    [Visit(e, depth)] + if Enters(e, depth, limits) then VisitedAll(e.children, depth + 1, limits) else []
  }

  function VisitedAll(es: seq<Entity>, depth: nat, limits: Limits): seq<Visit>
    decreases es, 0, |es|
  {
    if es == [] then [] else Visited(es[0], depth, limits) + VisitedAll(es[1..], depth, limits)
  }

  // ---- One visit after another ----

  datatype Truncation = Truncation(mimeParts: bool, mimeDepth: bool, attachments: bool)

  datatype Progress = Progress(parts: nat, attachments: seq<Entry>, truncation: Truncation)

  const FRESH := Progress(0, [], Truncation(false, false, false))

  datatype Outcome = Going(p: Progress) | LimitHit(p: Progress) | BadMime

  function Append(p: Progress, entry: Entry, cut: bool, limits: Limits): Progress {
    if |p.attachments| >= limits.maxAttachments then p.(truncation := p.truncation.(attachments := true))
    else p.(attachments := p.attachments + [entry], truncation := p.truncation.(attachments := p.truncation.attachments || cut))
  }

  function Deep(p: Progress): Progress {
    p.(truncation := p.truncation.(mimeDepth := true))
  }

  /** What one counted visit does by itself. */
  function Take(v: Visit, p: Progress, limits: Limits): Outcome {
    if v.depth > limits.maxDepth then Going(Deep(p))
    else
      match v.entity
      case Malformed => BadMime
      case Part(qualified, entry, cut, content) =>
        if qualified then Going(Append(p, entry, cut, limits))
        else if Embedded(content, limits) then Going(Deep(p)) else Going(p)
      case Container(qualified, entry, cut, _) =>
        if qualified then Going(Append(p, entry, cut, limits)) else Going(p)
  }

  function TakeAll(vs: seq<Visit>, p: Progress, limits: Limits): Outcome
    decreases |vs|
  {
    if vs == [] then Going(p)
    else if p.parts >= limits.maxParts then LimitHit(p.(truncation := p.truncation.(mimeParts := true)))
    else
      match Take(vs[0], p.(parts := p.parts + 1), limits)
      case Going(q) => TakeAll(vs[1..], q, limits)
      case LimitHit(q) => LimitHit(q)
      case BadMime => BadMime
  }

  function Then(o: Outcome, vs: seq<Visit>, limits: Limits): Outcome {
    if o.Going? then TakeAll(vs, o.p, limits) else o
  }

  lemma {:induction false} TakeConcat(a: seq<Visit>, b: seq<Visit>, p: Progress, limits: Limits)
    ensures TakeAll(a + b, p, limits) == Then(TakeAll(a, p, limits), b, limits)
    decreases |a|
  {
    hide Take;
    if a == [] {
      assert a + b == b;
    } else {
      assert (a + b)[0] == a[0] && (a + b)[1..] == a[1..] + b;
      var o := Take(a[0], p.(parts := p.parts + 1), limits);
      if o.Going? {
        TakeConcat(a[1..], b, o.p, limits);
      }
    }
  }

  // ---- What comes out ----

  predicate Listed(v: Visit, limits: Limits) {
    v.depth <= limits.maxDepth && !v.entity.Malformed? && v.entity.qualified
  }

  predicate Omits(v: Visit, limits: Limits) {
    v.depth > limits.maxDepth || (v.entity.Part? && !v.entity.qualified && Embedded(v.entity.content, limits))
  }

  predicate Bad(v: Visit, limits: Limits) {
    v.depth <= limits.maxDepth && v.entity.Malformed?
  }

  datatype Item = Item(entry: Entry, cut: bool)

  /** The qualified entities among the visits. */
  function Items(vs: seq<Visit>, limits: Limits): seq<Item> {
    if vs == [] then []
    else (if Listed(vs[0], limits) then [Item(vs[0].entity.entry, vs[0].entity.cut)] else []) + Items(vs[1..], limits)
  }

  function First(s: seq<Item>, n: nat): (r: seq<Item>)
    ensures |r| <= n && |r| <= |s|
  {
    if |s| <= n then s else s[..n]
  }

  function EntriesOf(items: seq<Item>): (r: seq<Entry>)
    ensures |r| == |items| && forall i :: 0 <= i < |r| ==> r[i] == items[i].entry
  {
    seq(|items|, i requires 0 <= i < |items| => items[i].entry)
  }

  ghost predicate AnyCut(items: seq<Item>) {
    exists i :: 0 <= i < |items| && items[i].cut
  }

  ghost predicate AnyBad(vs: seq<Visit>, limits: Limits) {
    exists i :: 0 <= i < |vs| && Bad(vs[i], limits)
  }

  ghost predicate AnyOmits(vs: seq<Visit>, limits: Limits) {
    exists i :: 0 <= i < |vs| && Omits(vs[i], limits)
  }

  /** The visits that fit. */
  function Prefix(vs: seq<Visit>, room: nat): (r: seq<Visit>)
    ensures |r| <= |vs|
  {
    if |vs| <= room then vs else vs[..room]
  }

  /** The outcome, read off the visits that fit; over says that more follow. */
  ghost function Result(prefix: seq<Visit>, p: Progress, over: bool, limits: Limits): Outcome
    requires |p.attachments| <= limits.maxAttachments
  {
    var left := limits.maxAttachments - |p.attachments|;
    var items := Items(prefix, limits);
    if AnyBad(prefix, limits) then BadMime
    else
      var q := Progress(p.parts + |prefix|, p.attachments + EntriesOf(First(items, left)),
                        Truncation(p.truncation.mimeParts || over,
                                   p.truncation.mimeDepth || AnyOmits(prefix, limits),
                                   p.truncation.attachments || |items| > left || AnyCut(First(items, left))));
      if over then LimitHit(q) else Going(q)
  }

  ghost function Summary(vs: seq<Visit>, p: Progress, limits: Limits): Outcome
    requires p.parts <= limits.maxParts && |p.attachments| <= limits.maxAttachments
  {
    var room := limits.maxParts - p.parts;
    Result(Prefix(vs, room), p, |vs| > room, limits)
  }

  lemma PrefixCons(vs: seq<Visit>, room: nat)
    requires vs != [] && room > 0
    ensures Prefix(vs, room) == [vs[0]] + Prefix(vs[1..], room - 1)
  {
  }

  lemma AnyCons(v: Visit, vs: seq<Visit>, limits: Limits)
    ensures AnyBad([v] + vs, limits) <==> Bad(v, limits) || AnyBad(vs, limits)
    ensures AnyOmits([v] + vs, limits) <==> Omits(v, limits) || AnyOmits(vs, limits)
  {
    hide Bad, Omits;
    var all := [v] + vs;
    assert all[0] == v && all[1..] == vs;
    if i :| 0 <= i < |vs| && Bad(vs[i], limits) {
      assert Bad(all[i + 1], limits);
    }
    if i :| 0 <= i < |vs| && Omits(vs[i], limits) {
      assert Omits(all[i + 1], limits);
    }
  }

  lemma TakeIs(v: Visit, p: Progress, limits: Limits)
    requires |p.attachments| <= limits.maxAttachments
    ensures Bad(v, limits) ==> Take(v, p, limits) == BadMime
    ensures !Bad(v, limits) ==>
              var listed, full := Listed(v, limits), |p.attachments| == limits.maxAttachments;
              Take(v, p, limits) == Going(Progress(p.parts, p.attachments + (if listed && !full then [v.entity.entry] else []),
                                                   Truncation(p.truncation.mimeParts, p.truncation.mimeDepth || Omits(v, limits),
                                                              p.truncation.attachments || (listed && (full || v.entity.cut)))))
  {
    assert p.attachments + [] == p.attachments;
  }

  lemma FirstOfCons(item: Item, items: seq<Item>, n: nat)
    ensures n == 0 ==> First([item] + items, n) == [] && First(items, n) == []
    ensures n > 0 ==> First([item] + items, n) == [item] + First(items, n - 1)
  {
  }

  lemma EntriesOfCons(item: Item, items: seq<Item>)
    ensures EntriesOf([item] + items) == [item.entry] + EntriesOf(items)
  {
  }

  lemma AnyCutCons(item: Item, items: seq<Item>)
    ensures AnyCut([item] + items) <==> item.cut || AnyCut(items)
  {
    var all := [item] + items;
    assert all[0] == item && forall i :: 0 <= i < |items| ==> all[i + 1] == items[i];
  }

  /** The first items with one more in front. */
  lemma FirstCons(item: Item, items: seq<Item>, n: nat, before: seq<Entry>)
    ensures n == 0 ==> First([item] + items, n) == [] && First(items, n) == []
    ensures n > 0 ==>
              && before + EntriesOf(First([item] + items, n)) == before + [item.entry] + EntriesOf(First(items, n - 1))
              && (AnyCut(First([item] + items, n)) <==> item.cut || AnyCut(First(items, n - 1)))
  {
    hide First, EntriesOf, AnyCut;
    FirstOfCons(item, items, n);
    if n > 0 {
      var b := First(items, n - 1);
      EntriesOfCons(item, b);
      AnyCutCons(item, b);
      Assoc(before, [item.entry], EntriesOf(b));
    }
  }

  lemma ResultCons(v: Visit, rest: seq<Visit>, p: Progress, over: bool, limits: Limits)
    requires |p.attachments| <= limits.maxAttachments
    ensures var o := Take(v, p.(parts := p.parts + 1), limits);
            && Result([v] + rest, p, over, limits)
               == (if Bad(v, limits) then BadMime
                   else if o.Going? && |o.p.attachments| <= limits.maxAttachments then Result(rest, o.p, over, limits) else BadMime)
            && (Bad(v, limits) <==> !o.Going?)
            && (o.Going? ==> |o.p.attachments| <= limits.maxAttachments && o.p.parts == p.parts + 1)
            && (!o.Going? ==> o == BadMime)
  {
    hide Take, Bad, Omits, First, AnyCut, AnyBad, AnyOmits, EntriesOf;
    TakeIs(v, p.(parts := p.parts + 1), limits);
    AnyCons(v, rest, limits);
    assert ([v] + rest)[1..] == rest;
    var items, left := Items(rest, limits), limits.maxAttachments - |p.attachments|;
    if Listed(v, limits) {
      FirstCons(Item(v.entity.entry, v.entity.cut), items, left, p.attachments);
      NoneFirst();
    } else {
      assert [] + items == items;
    }
    assert p.attachments + [] == p.attachments;
  }

  lemma NoneFirst()
    ensures EntriesOf([]) == [] && !AnyCut([])
  {
  }

  /** Visiting in order does exactly what the first visits that fit say: it
      fails when one of them is malformed; else it lists the first qualified
      entities up to the count limit, and sets each flag just when something was
      left out. */
  lemma {:induction false} TakeAllIs(vs: seq<Visit>, p: Progress, limits: Limits)
    requires p.parts <= limits.maxParts && |p.attachments| <= limits.maxAttachments
    ensures TakeAll(vs, p, limits) == Summary(vs, p, limits)
    decreases |vs|
  {
    hide Take, Bad, Result;
    var room := limits.maxParts - p.parts;
    if vs == [] || room == 0 {
      ResultNone(p, vs != [], limits);
    } else {
      PrefixCons(vs, room);
      ResultCons(vs[0], Prefix(vs[1..], room - 1), p, |vs| > room, limits);
      var o := Take(vs[0], p.(parts := p.parts + 1), limits);
      if o.Going? {
        TakeAllIs(vs[1..], o.p, limits);
      }
    }
  }

  lemma ResultNone(p: Progress, over: bool, limits: Limits)
    requires |p.attachments| <= limits.maxAttachments
    ensures var q := p.(truncation := p.truncation.(mimeParts := p.truncation.mimeParts || over));
            Result([], p, over, limits) == if over then LimitHit(q) else Going(q)
  {
    NoneFirst();
    assert p.attachments + [] == p.attachments;
  }

  // ---- The projector ----

  datatype Status = Continue | Stop | Fail

  ghost predicate Reached(o: Outcome, status: Status, p: Progress) {
    match o
    case Going(q) => status == Continue && q == p
    case LimitHit(q) => status == Stop && q == p
    case BadMime => status == Fail
  }

  class Projector {
    const limits: Limits
    var parts: nat
    var attachments: seq<Entry>
    var truncation: Truncation

    ghost function State(): Progress
      reads this
    {
      Progress(parts, attachments, truncation)
    }

    constructor (l: Limits)
      ensures limits == l && State() == FRESH
    {
      limits, parts, attachments, truncation := l, 0, [], Truncation(false, false, false);
    }

    /** Lists one attachment within the limits. */
    method AppendAttachment(entry: Entry, cut: bool)
      modifies this`attachments, this`truncation
      ensures State() == Append(old(State()), entry, cut, limits)
    {
      if |attachments| >= limits.maxAttachments {
        truncation := truncation.(attachments := true);
        return;
      }
      if cut {
        truncation := truncation.(attachments := true);
      }
      attachments := attachments + [entry];
    }

    /** Visits an entity already counted as a part; each child is counted before
        it is visited. */
    method VisitEntity(e: Entity, depth: nat) returns (status: Status)
      requires 1 <= parts <= limits.maxParts
      modifies this`parts, this`attachments, this`truncation
      ensures Reached(TakeAll(Visited(e, depth, limits), old(State()).(parts := old(parts) - 1), limits), status, State())
      ensures status == Continue ==> 1 <= parts <= limits.maxParts
      decreases e
    {
      ghost var begun := State().(parts := parts - 1);
      ghost var v := Visit(e, depth);
      TakeFirst(v, if Enters(e, depth, limits) then VisitedAll(e.children, depth + 1, limits) else [], begun, limits);
      if depth > limits.maxDepth {
        truncation := truncation.(mimeDepth := true);
        return Continue;
      }
      match e {
        case Malformed =>
          return Fail;
        case Part(qualified, entry, cut, content) =>
          if qualified {
            AppendAttachment(entry, cut);
          } else if content == Rfc822 || (content == Global && limits.global) {
            truncation := truncation.(mimeDepth := true);
          }
          return Continue;
        case Container(qualified, entry, cut, children) =>
          if qualified {
            AppendAttachment(entry, cut);
            return Continue;
          }
          status := VisitChildren(children, depth + 1);
      }
    }

    method VisitChildren(children: seq<Entity>, depth: nat) returns (status: Status)
      requires 1 <= parts <= limits.maxParts
      modifies this`parts, this`attachments, this`truncation
      ensures Reached(TakeAll(VisitedAll(children, depth, limits), old(State()), limits), status, State())
      ensures status == Continue ==> 1 <= parts <= limits.maxParts
      decreases children
    {
      hide Take;
      ghost var whole := TakeAll(VisitedAll(children, depth, limits), State(), limits);
      var i := 0;
      assert children[0..] == children;
      while i < |children|
        invariant i <= |children| && 1 <= parts <= limits.maxParts
        invariant TakeAll(VisitedAll(children[i..], depth, limits), State(), limits) == whole
      {
        var child := children[i];
        assert children[i..][0] == child && children[i..][1..] == children[i + 1..];
        ghost var mine, later := Visited(child, depth, limits), VisitedAll(children[i + 1..], depth, limits);
        assert VisitedAll(children[i..], depth, limits) == mine + later;
        TakeConcat(mine, later, State(), limits);
        if parts >= limits.maxParts {
          truncation := truncation.(mimeParts := true);
          return Stop;
        }
        parts := parts + 1;
        status := VisitEntity(child, depth);
        if status != Continue {
          return;
        }
        i := i + 1;
      }
      status := Continue;
    }
  }

  /** A counted first visit, then the others. */
  lemma TakeFirst(v: Visit, rest: seq<Visit>, p: Progress, limits: Limits)
    requires p.parts < limits.maxParts
    ensures TakeAll([v] + rest, p, limits) == Then(Take(v, p.(parts := p.parts + 1), limits), rest, limits)
  {
    var vs := [v] + rest;
    assert vs[0] == v && vs[1..] == rest;
    TakeHead(vs, p, limits);
  }

  lemma TakeHead(vs: seq<Visit>, p: Progress, limits: Limits)
    requires vs != [] && p.parts < limits.maxParts
    ensures TakeAll(vs, p, limits) == Then(Take(vs[0], p.(parts := p.parts + 1), limits), vs[1..], limits)
  {
    hide Take;
  }

  datatype Projection = Projected(attachments: seq<Entry>, truncation: Truncation) | MalformedStructure

  ghost function ProjectionOf(o: Outcome): Projection {
    if o.BadMime? then MalformedStructure else Projected(o.p.attachments, o.p.truncation)
  }

  /** The attachments of a structure: the first qualified entities among the
      first entities visited, and the flags for what that leaves out. */
  method ProjectAttachmentStructure(structure: Entity, limits: Limits) returns (r: Projection)
    requires limits.maxParts >= 1
    ensures r == ProjectionOf(Summary(Visited(structure, 0, limits), FRESH, limits))
  {
    hide Visited, Summary, TakeAll;
    var projector := new Projector(limits);
    projector.parts := projector.parts + 1;
    assert FRESH == projector.State().(parts := 0);
    TakeAllIs(Visited(structure, 0, limits), FRESH, limits);
    var status := projector.VisitEntity(structure, 0);
    if status == Fail {
      return MalformedStructure;
    }
    r := Projected(projector.attachments, projector.truncation);
  }

  // ---- Complete projections ----

  lemma {:induction false} AnyDepthVisits(e: Entity, depth: nat, limits: Limits, wider: Limits)
    requires wider.maxDepth >= limits.maxDepth
    requires forall i :: 0 <= i < |Visited(e, depth, limits)| ==> Visited(e, depth, limits)[i].depth <= limits.maxDepth
    ensures Visited(e, depth, wider) == Visited(e, depth, limits)
    decreases e, 1, 0
  {
    if Enters(e, depth, limits) {
      var inner := VisitedAll(e.children, depth + 1, limits);
      assert forall i :: 0 <= i < |inner| ==> inner[i] == Visited(e, depth, limits)[i + 1];
      AnyDepthVisitsAll(e.children, depth + 1, limits, wider);
    } else {
      assert Visited(e, depth, limits)[0].depth == depth;
    }
  }

  lemma {:induction false} AnyDepthVisitsAll(es: seq<Entity>, depth: nat, limits: Limits, wider: Limits)
    requires wider.maxDepth >= limits.maxDepth
    requires forall i :: 0 <= i < |VisitedAll(es, depth, limits)| ==> VisitedAll(es, depth, limits)[i].depth <= limits.maxDepth
    ensures VisitedAll(es, depth, wider) == VisitedAll(es, depth, limits)
    decreases es, 0, |es|
  {
    if es != [] {
      var mine, later := Visited(es[0], depth, limits), VisitedAll(es[1..], depth, limits);
      var all := VisitedAll(es, depth, limits);
      assert forall i :: 0 <= i < |mine| ==> mine[i] == all[i];
      assert forall i :: 0 <= i < |later| ==> later[i] == all[|mine| + i];
      AnyDepthVisits(es[0], depth, limits, wider);
      AnyDepthVisitsAll(es[1..], depth, limits, wider);
    }
  }

  /** With no flag set the projection is the unbounded one: every attachment of
      the structure, under any wider limits. */
  lemma UnflaggedIsComplete(structure: Entity, limits: Limits, wider: Limits, attachments: seq<Entry>)
    requires limits.maxParts >= 1 && wider.maxDepth >= limits.maxDepth
    requires ProjectionOf(Summary(Visited(structure, 0, limits), FRESH, limits)) == Projected(attachments, Truncation(false, false, false))
    ensures attachments == EntriesOf(Items(Visited(structure, 0, wider), wider))
  {
    hide Visited, Items, Omits, Bad;
    var vs := Visited(structure, 0, limits);
    assert Prefix(vs, limits.maxParts) == vs;
    forall i | 0 <= i < |vs| ensures vs[i].depth <= limits.maxDepth {
      NotOmitted(vs, i, limits);
    }
    AnyDepthVisits(structure, 0, limits, wider);
    ItemsWider(vs, limits, wider);
    assert [] + EntriesOf(Items(vs, limits)) == EntriesOf(Items(vs, limits));
  }

  lemma NotOmitted(vs: seq<Visit>, i: nat, limits: Limits)
    requires i < |vs| && !AnyOmits(vs, limits)
    ensures vs[i].depth <= limits.maxDepth
  {
    assert !Omits(vs[i], limits);
  }

  lemma {:induction false} ItemsWider(vs: seq<Visit>, limits: Limits, wider: Limits)
    requires wider.maxDepth >= limits.maxDepth && forall i :: 0 <= i < |vs| ==> vs[i].depth <= limits.maxDepth
    ensures Items(vs, wider) == Items(vs, limits)
    decreases |vs|
  {
    if vs != [] {
      ItemsWider(vs[1..], limits, wider);
    }
  }
}
