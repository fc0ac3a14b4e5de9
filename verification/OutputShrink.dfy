/** Shrinking a tool result until its encoding fits
    (internal/mcpserver/output.go:38-156). */
module OutputShrink {
  import opened Octets
  import opened Wrappers
  import opened Utf8
  import opened Utf8Cuts

  /** What the six results have to give up: the one list of a folder, search,
      attachment or digest result; the text and then the attachments of a
      message; the unavailable members and then the nodes of a thread. */
  datatype Output<A, N> =
    | Listing(items: seq<A>, truncated: bool)
    | Message(text: bytes, attachments: seq<A>, truncated: bool)
    | Thread(unavailable: seq<A>, nodes: seq<N>, truncated: bool)

  /** Nothing can be given up any more; a thread keeps one node. */
  predicate Exhausted<A, N>(m: Output<A, N>) {
    match m
    case Listing(items, _) => |items| == 0
    case Message(text, attachments, _) => |text| == 0 && |attachments| == 0
    case Thread(unavailable, nodes, _) => |unavailable| == 0 && |nodes| <= 1
  }

  function Weight<A, N>(m: Output<A, N>): nat {
    match m
    case Listing(items, _) => |items|
    case Message(text, attachments, _) => |text| + |attachments|
    case Thread(unavailable, nodes, _) => |unavailable| + |nodes|
  }

  /** n keeps a beginning of everything m has: what comes second is whole while
      any of the first is left, and a thread with a node keeps one. */
  ghost predicate Kept<A, N>(n: Output<A, N>, m: Output<A, N>) {
    match m
    case Listing(items, _) => n.Listing? && n.items <= items
    case Message(text, attachments, _) =>
      && n.Message? && n.text <= text && n.attachments <= attachments
      && (Valid(text) ==> Valid(n.text)) && (n.text != [] ==> n.attachments == attachments)
    case Thread(unavailable, nodes, _) =>
      && n.Thread? && n.unavailable <= unavailable && n.nodes <= nodes
      && (n.unavailable != [] ==> n.nodes == nodes) && (nodes != [] ==> n.nodes != [])
  }

  /** n is m after one step. */
  ghost predicate Shrunk<A, N>(m: Output<A, N>, n: Output<A, N>) {
    && n.truncated
    && match m
       case Listing(items, _) => n == Listing(items[..|items| / 2], true)
       case Message(text, attachments, _) =>
         if text != [] then n.Message? && n.attachments == attachments && n.text < text && (Valid(text) ==> Halved(text, n.text))
         else n == Message([], attachments[..|attachments| / 2], true)
       case Thread(unavailable, nodes, _) =>
         if unavailable != [] then n == Thread(unavailable[..|unavailable| / 2], nodes, true)
         else n == Thread([], nodes[..(|nodes| + 1) / 2], true)
  }

  /** One step: half of the first thing there still is to give up. */
  method ShrinkForOutput<A, N>(m: Output<A, N>) returns (more: bool, n: Output<A, N>)
    ensures more <==> !Exhausted(m)
    ensures if more then Shrunk(m, n) && Kept(n, m) && Weight(n) < Weight(m) else n == m
  {
    if Exhausted(m) {
      return false, m;
    }
    more := true;
    match m {
      case Listing(items, _) =>
        n := Listing(items[..|items| / 2], true);
      case Message(text, attachments, _) =>
        if |text| > 0 {
          var half := HalveRunes(text);
          n := Message(half, attachments, true);
        } else {
          n := Message([], attachments[..|attachments| / 2], true);
        }
      case Thread(unavailable, nodes, _) =>
        if |unavailable| > 0 {
          n := Thread(unavailable[..|unavailable| / 2], nodes, true);
        } else {
          n := Thread([], nodes[..(|nodes| + 1) / 2], true);
        }
    }
  }

  lemma KeptThen<A, N>(a: Output<A, N>, b: Output<A, N>, c: Output<A, N>)
    requires Kept(a, b) && Kept(b, c)
    ensures Kept(a, c)
  {
  }

  /** How a result leaves the encoder: whole or shrunk, as its own fallback, as
      an error for an identity that must not be cut, or as a bare flag. */
  datatype Encoding = Whole | Cut | Fallback | Unretainable | Bare

  /** Shrinks step by step until the result fits or is exhausted; size stands
      for the encoder, and fallback for the size of the result's own fallback,
      if its kind has one. */
  method EncodeBounded<A, N>(m: Output<A, N>, size: Output<A, N> -> nat, fallback: Output<A, N> -> Option<nat>, selectable: bool, limit: nat)
    returns (e: Encoding, n: Output<A, N>)
    ensures Kept(n, m)
    ensures n == m || (n.truncated && exists p :: Kept(p, m) && size(p) > limit && Shrunk(p, n))
    ensures size(m) <= limit ==> n == m
    ensures size(n) > limit ==> Exhausted(n)
    ensures e == if size(m) <= limit then Whole
                 else if size(n) <= limit then Cut
                 else if fallback(n).Some? && fallback(n).value <= limit then Fallback
                 else if selectable then Unretainable
                 else Bare
  {
    hide Kept, Shrunk;
    n := m;
    assert Kept(m, m) by { KeptItself(m); }
    while size(n) > limit
      invariant Kept(n, m)
      invariant size(m) <= limit ==> n == m
      invariant n == m || (n.truncated && exists p :: Kept(p, m) && size(p) > limit && Shrunk(p, n))
      decreases Weight(n)
    {
      var more, smaller := ShrinkForOutput(n);
      if !more {
        var last := fallback(n);
        e := if last.Some? && last.value <= limit then Fallback else if selectable then Unretainable else Bare;
        return;
      }
      KeptThen(smaller, n, m);
      TruncatedThen(n, smaller);
      n := smaller;
    }
    e := if size(m) <= limit then Whole else Cut;
  }

  lemma KeptItself<A, N>(m: Output<A, N>)
    ensures Kept(m, m)
  {
  }

  lemma TruncatedThen<A, N>(m: Output<A, N>, n: Output<A, N>)
    requires Shrunk(m, n)
    ensures n.truncated
  {
  }
}
