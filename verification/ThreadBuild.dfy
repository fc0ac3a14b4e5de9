/** Building a thread from fetched headers: distinct keys, reference parents,
    a forest of bounded depth (bridge/threads.go:39-102, 180-226). */
module ThreadBuild {
  import opened Octets
  import opened Sequences
  import opened ThreadOrder
  import opened ThreadSelection
  import opened ThreadEarliest
  import opened ThreadLinks
  import opened ThreadDepth

  // ---- Keys ----

  const HASH: byte := 0x23
  const MESSAGE: bytes := [0x6d, 0x65, 0x73, 0x73, 0x61, 0x67, 0x65]

  function Base(m: ThreadMessage): (key: bytes)
    ensures key != []
  {
    if m.key != [] then m.key else if m.messageId != [] then m.messageId else MESSAGE
  }

  function Suffixed(base: bytes, n: nat): bytes {
    base + [HASH] + Decimal(n)
  }

  lemma SuffixedDiffer(base: bytes, m: nat, n: nat)
    ensures Suffixed(base, m) != base
    ensures Suffixed(base, m) == Suffixed(base, n) ==> m == n
  {
    var a, b := Suffixed(base, m), Suffixed(base, n);
    assert a[|base| + 1..] == Decimal(m) && b[|base| + 1..] == Decimal(n);
    assert |a| > |base|;
    if a == b {
      DecimalInjective(m, n);
    }
  }

  /** The first of base, base#2, base#3, ... that is not taken. */
  ghost predicate FirstFree(key: bytes, base: bytes, taken: set<bytes>) {
    && key !in taken
    && (key == base || (base in taken && exists n: nat :: FreeAt(key, base, taken, n)))
  }

  ghost predicate FreeAt(key: bytes, base: bytes, taken: set<bytes>, n: nat) {
    n >= 2 && key == Suffixed(base, n) && forall t: nat :: 2 <= t < n ==> Suffixed(base, t) in taken
  }

  /** Tries suffixes until one is free; at most one more try than keys taken. */
  method StableThreadKey(message: ThreadMessage, keys: map<bytes, nat>) returns (key: bytes)
    ensures FirstFree(key, Base(message), keys.Keys) && key != []
  {
    hide Tried, Suffixed, FreeAt;
    var base := Base(message);
    key := base;
    var suffix: nat := 2;
    ghost var tried: set<bytes> := {};
    NothingTried(base);
    while key in keys
      invariant Tried(tried, base, key, suffix) && tried <= keys.Keys
      decreases |keys| + 2 - suffix
    {
      TriedMore(tried, base, key, suffix);
      tried := tried + {key};
      SubsetSize(tried, keys.Keys);
      assert |keys.Keys| == |keys|;
      key := Suffixed(base, suffix);
      suffix := suffix + 1;
    }
    TriedFirstFree(tried, base, key, suffix, keys.Keys);
  }

  /** The keys tried before the one at hand: base and every suffix below. */
  ghost predicate Tried(tried: set<bytes>, base: bytes, key: bytes, suffix: nat) {
    && suffix >= 2 && key == (if suffix == 2 then base else Suffixed(base, suffix - 1))
    && |tried| == suffix - 2 && key !in tried && (suffix > 2 ==> base in tried)
    && (forall t: nat :: 2 <= t < suffix - 1 ==> Suffixed(base, t) in tried)
    && (forall y :: y in tried ==> y == base || exists t: nat :: 2 <= t < suffix - 1 && y == Suffixed(base, t))
  }

  lemma NothingTried(base: bytes)
    ensures Tried({}, base, base, 2)
  {
  }

  lemma TriedMore(tried: set<bytes>, base: bytes, key: bytes, suffix: nat)
    requires Tried(tried, base, key, suffix)
    ensures Tried(tried + {key}, base, Suffixed(base, suffix), suffix + 1) && |tried + {key}| == suffix - 1
  {
    hide Suffixed;
    var next := Suffixed(base, suffix);
    SuffixedDiffer(base, suffix, suffix);
    forall t: nat | 2 <= t < suffix ensures Suffixed(base, t) != next {
      SuffixedDiffer(base, t, suffix);
    }
    forall y | y in tried + {key} ensures y != next && (y == base || exists t: nat :: 2 <= t < suffix && y == Suffixed(base, t)) {
      if y != base && y in tried {
        var t: nat :| 2 <= t < suffix - 1 && y == Suffixed(base, t);
      }
    }
  }

  lemma TriedFirstFree(tried: set<bytes>, base: bytes, key: bytes, suffix: nat, taken: set<bytes>)
    requires Tried(tried, base, key, suffix) && tried <= taken && key !in taken && base != []
    ensures FirstFree(key, base, taken) && key != []
  {
    if suffix > 2 {
      assert FreeAt(key, base, taken, suffix - 1);
    }
  }

  /** Each message under the first key free after those before it. */
  ghost predicate Keyed(keyed: seq<ThreadMessage>, messages: seq<ThreadMessage>) {
    && |keyed| == |messages|
    && (forall i :: 0 <= i < |keyed| ==> keyed[i] == messages[i].(key := keyed[i].key) && keyed[i].key != [])
    && (forall i :: 0 <= i < |keyed| ==> FirstFree(keyed[i].key, Base(messages[i]), KeysOf(keyed[..i])))
  }

  function KeysOf(s: seq<ThreadMessage>): set<bytes> {
    set i | 0 <= i < |s| :: s[i].key
  }

  lemma KeysDistinct(keyed: seq<ThreadMessage>, messages: seq<ThreadMessage>, i: nat, j: nat)
    requires Keyed(keyed, messages) && i < j < |keyed|
    ensures keyed[i].key != keyed[j].key
  {
    assert keyed[..j][i] == keyed[i];
    assert keyed[i].key in KeysOf(keyed[..j]);
    assert FirstFree(keyed[j].key, Base(messages[j]), KeysOf(keyed[..j]));
  }

  /** A message whose own key no earlier one took keeps it; without a key of its
      own it goes by its identifier, and without either by a fixed word. */
  lemma KeyKept(keyed: seq<ThreadMessage>, messages: seq<ThreadMessage>, i: nat)
    requires Keyed(keyed, messages) && i < |keyed|
    ensures var m := messages[i];
            var wanted := if m.key != [] then m.key else if m.messageId != [] then m.messageId else MESSAGE;
            if forall j :: 0 <= j < i ==> keyed[j].key != wanted then keyed[i].key == wanted
            else exists n: nat :: n >= 2 && keyed[i].key == wanted + [HASH] + Decimal(n)
                                  && forall t: nat :: 2 <= t < n ==> exists j :: 0 <= j < i && keyed[j].key == wanted + [HASH] + Decimal(t)
  {
    var before, wanted := keyed[..i], Base(messages[i]);
    assert FirstFree(keyed[i].key, wanted, KeysOf(before));
    forall k ensures k in KeysOf(before) <==> exists j :: 0 <= j < i && keyed[j].key == k {
      if exists j :: 0 <= j < i && keyed[j].key == k {
        var j :| 0 <= j < i && keyed[j].key == k;
        assert before[j] == keyed[j];
      }
    }
    if keyed[i].key != wanted {
      var n: nat :| FreeAt(keyed[i].key, wanted, KeysOf(before), n);
      forall t: nat | 2 <= t < n ensures exists j :: 0 <= j < i && keyed[j].key == wanted + [HASH] + Decimal(t) {
        assert Suffixed(wanted, t) in KeysOf(before);
      }
    }
  }

  // ---- Parents ----

  /** The first message that carries an identifier. */
  function FirstWith(messages: seq<ThreadMessage>, identifier: bytes): (k: nat)
    ensures k <= |messages|
    ensures k < |messages| ==> messages[k].messageId == identifier
    ensures forall i :: 0 <= i < k ==> messages[i].messageId != identifier
  {
    if messages == [] || messages[0].messageId == identifier then 0 else 1 + FirstWith(messages[1..], identifier)
  }

  /** The message an identifier names, or -1. */
  function Named(messages: seq<ThreadMessage>, identifier: bytes): (k: int)
    ensures -1 <= k < |messages|
  {
    var k := FirstWith(messages, identifier);
    if identifier == [] || k == |messages| then -1 else k
  }

  /** The last of the references that names a message, or -1. */
  function LastNamed(messages: seq<ThreadMessage>, references: seq<bytes>): (k: int)
    ensures -1 <= k < |messages|
  {
    if references == [] then -1
    else
      var last := Named(messages, references[|references| - 1]);
      if last >= 0 then last else LastNamed(messages, references[..|references| - 1])
  }

  function LastReferences(m: ThreadMessage, limit: nat): seq<bytes> {
    if |m.references| > limit then m.references[|m.references| - limit..] else m.references
  }

  /** The candidate parent of a message, and the identifier it misses: the last
      known reference, or failing any reference what it replies to. */
  function ParentOf(messages: seq<ThreadMessage>, m: ThreadMessage, limit: nat): (r: (int, bytes))
    ensures -1 <= r.0 < |messages|
  {
    var references := LastReferences(m, limit);
    var known := LastNamed(messages, references);
    if known >= 0 then (known, [])
    else if references != [] then (-1, references[|references| - 1])
    else if m.inReplyTo == [] then (-1, [])
    else
      var replied := Named(messages, m.inReplyTo);
      (replied, if replied >= 0 then [] else m.inReplyTo)
  }

  /** k is the first message that carries the identifier. */
  ghost predicate Names(messages: seq<ThreadMessage>, identifier: bytes, k: int) {
    && identifier != [] && 0 <= k < |messages| && messages[k].messageId == identifier
    && forall j :: 0 <= j < k ==> messages[j].messageId != identifier
  }

  ghost predicate NamesNone(messages: seq<ThreadMessage>, identifier: bytes) {
    identifier == [] || forall j :: 0 <= j < |messages| ==> messages[j].messageId != identifier
  }

  lemma NamedIs(messages: seq<ThreadMessage>, identifier: bytes)
    ensures var k := Named(messages, identifier);
            if k >= 0 then Names(messages, identifier, k) && !NamesNone(messages, identifier)
            else NamesNone(messages, identifier)
  {
    hide FirstWith;
  }

  /** The reference at i is the last of those from low on that names a message,
      and names k. */
  ghost predicate LastNames(messages: seq<ThreadMessage>, references: seq<bytes>, i: int, k: int) {
    && 0 <= i < |references| && Names(messages, references[i], k)
    && forall j :: i < j < |references| ==> NamesNone(messages, references[j])
  }

  lemma {:induction false} LastNamedIs(messages: seq<ThreadMessage>, references: seq<bytes>)
    ensures var k := LastNamed(messages, references);
            if k >= 0 then exists i :: LastNames(messages, references, i, k)
            else forall i :: 0 <= i < |references| ==> NamesNone(messages, references[i])
    decreases |references|
  {
    hide Named, Names, NamesNone;
    if references != [] {
      var n := |references| - 1;
      NamedIs(messages, references[n]);
      LastNamedIs(messages, references[..n]);
      var k := LastNamed(messages, references);
      if Named(messages, references[n]) >= 0 {
        assert LastNames(messages, references, n, k);
      } else if k >= 0 {
        var i :| LastNames(messages, references[..n], i, k);
        assert references[..n][i] == references[i];
        assert forall j :: i < j < n ==> NamesNone(messages, references[..n][j]);
        assert LastNames(messages, references, i, k);
      } else {
        assert forall i :: 0 <= i < n ==> NamesNone(messages, references[..n][i]);
      }
    }
  }

  /** The parent is the first message that carries the last reference known in
      the thread, looking back over at most limit references; only a message
      without any reads what it replies to. What is missing is the last
      reference, or what is replied to, when no message carries it. */
  lemma ParentIs(messages: seq<ThreadMessage>, m: ThreadMessage, limit: nat)
    ensures var (parent, missing) := ParentOf(messages, m, limit);
            var recent := m.references[if |m.references| > limit then |m.references| - limit else 0..];
            if parent >= 0 then
              && missing == []
              && ((exists i :: LastNames(messages, recent, i, parent))
                  || (recent == [] && Names(messages, m.inReplyTo, parent)))
            else
              && parent == -1
              && (forall i :: 0 <= i < |recent| ==> NamesNone(messages, recent[i]))
              && (if recent != [] then missing == recent[|recent| - 1]
                  else NamesNone(messages, m.inReplyTo) && missing == m.inReplyTo)
  {
    hide LastNamed, Named, Names, NamesNone;
    assert m.references[0..] == m.references;
    LastNamedIs(messages, LastReferences(m, limit));
    NamedIs(messages, m.inReplyTo);
    NothingNamed(messages);
  }

  lemma NothingNamed(messages: seq<ThreadMessage>)
    ensures LastNamed(messages, []) == -1 && Named(messages, []) == -1
  {
  }

  ghost predicate Indexes(identifiers: map<bytes, nat>, messages: seq<ThreadMessage>) {
    forall identifier ::
      if Named(messages, identifier) >= 0 then identifier in identifiers && identifiers[identifier] == Named(messages, identifier)
      else identifier !in identifiers
  }

  /** The scan for a parent, last reference first. */
  method ParentFor(messages: seq<ThreadMessage>, message: ThreadMessage, identifiers: map<bytes, nat>, limit: nat)
    returns (parent: int, missing: bytes, truncated: bool)
    requires Indexes(identifiers, messages)
    ensures (parent, missing) == ParentOf(messages, message, limit)
    ensures truncated <==> |message.references| > limit
  {
    hide Named;
    var references := LastReferences(message, limit);
    truncated := |message.references| > limit;
    var index := |references|;
    assert references[..index] == references;
    while index > 0
      invariant index <= |references| && LastNamed(messages, references) == LastNamed(messages, references[..index])
    {
      index := index - 1;
      assert references[..index + 1][..index] == references[..index];
      assert Named(messages, references[index]) >= 0 <==> references[index] in identifiers;
      if references[index] in identifiers {
        return identifiers[references[index]], [], truncated;
      }
    }
    if |references| > 0 {
      return -1, references[|references| - 1], truncated;
    }
    if message.inReplyTo != [] {
      assert Named(messages, message.inReplyTo) >= 0 <==> message.inReplyTo in identifiers;
      if message.inReplyTo in identifiers {
        return identifiers[message.inReplyTo], [], truncated;
      }
      return -1, message.inReplyTo, truncated;
    }
    return -1, [], truncated;
  }

  function Candidates(messages: seq<ThreadMessage>, limit: nat): (p: links)
    ensures |p| == |messages|
  {
    seq(|messages|, i requires 0 <= i < |messages| => ParentOf(messages, messages[i], limit).0)
  }

  // ---- The thread ----

  datatype Limits = Limits(maxThreadMessages: nat, maxReferenceCount: nat, maxThreadDepth: nat)

  datatype Truncation = Truncation(threadMessages: bool, references: bool, threadCycle: bool, threadDepth: bool)

  datatype ThreadNode = ThreadNode(key: bytes, messageId: bytes, parentKey: bytes, missingParentId: bytes, depth: nat, message: ThreadMessage)

  datatype Thread = Thread(nodes: seq<ThreadNode>, truncation: Truncation)

  /** Keys every message in turn and indexes the first of each identifier. */
  method KeyMessages(messages: seq<ThreadMessage>) returns (keyed: seq<ThreadMessage>, identifiers: map<bytes, nat>)
    ensures Keyed(keyed, messages) && Indexes(identifiers, keyed)
  {
    hide FirstFree;
    var keys: map<bytes, nat> := map[];
    keyed, identifiers := [], map[];
    for index := 0 to |messages|
      invariant |keyed| == index && keys.Keys == KeysOf(keyed)
      invariant Keyed(keyed, messages[..index]) && Indexes(identifiers, keyed)
    {
      var key := StableThreadKey(messages[index], keys);
      var message := messages[index].(key := key);
      KeyedMore(keyed, messages, index, message);
      IndexesMore(identifiers, keyed, message);
      keyed := keyed + [message];
      keys := keys[key := index];
      if message.messageId != [] && message.messageId !in identifiers {
        identifiers := identifiers[message.messageId := index];
      }
    }
    assert messages[..|messages|] == messages;
  }

  lemma KeyedMore(keyed: seq<ThreadMessage>, messages: seq<ThreadMessage>, index: nat, m: ThreadMessage)
    requires index < |messages| && Keyed(keyed, messages[..index])
    requires m == messages[index].(key := m.key) && m.key != [] && FirstFree(m.key, Base(messages[index]), KeysOf(keyed))
    ensures Keyed(keyed + [m], messages[..index + 1]) && KeysOf(keyed + [m]) == KeysOf(keyed) + {m.key}
  {
    hide FirstFree, Base;
    var more := keyed + [m];
    forall i | 0 <= i < |more| ensures FirstFree(more[i].key, Base(messages[i]), KeysOf(more[..i])) {
      if i < index {
        assert more[..i] == keyed[..i] && messages[..index][i] == messages[i];
      } else {
        assert more[..i] == keyed;
      }
    }
    assert more[|keyed|] == m;
    forall k | k in KeysOf(keyed) ensures k in KeysOf(more) {
      var i :| 0 <= i < |keyed| && keyed[i].key == k;
      assert more[i].key == k;
    }
  }

  lemma IndexesMore(identifiers: map<bytes, nat>, messages: seq<ThreadMessage>, m: ThreadMessage)
    requires Indexes(identifiers, messages)
    ensures Indexes(if m.messageId != [] && m.messageId !in identifiers then identifiers[m.messageId := |messages|] else identifiers, messages + [m])
  {
    hide Named;
    forall identifier: bytes
      ensures Named(messages + [m], identifier) ==
              if Named(messages, identifier) >= 0 then Named(messages, identifier)
              else if identifier != [] && identifier == m.messageId then |messages| else -1
    {
      NamedMore(messages, m, identifier);
    }
  }

  lemma {:induction false} FirstMore(messages: seq<ThreadMessage>, m: ThreadMessage, identifier: bytes)
    ensures FirstWith(messages + [m], identifier) ==
            if FirstWith(messages, identifier) < |messages| then FirstWith(messages, identifier)
            else if m.messageId == identifier then |messages| else |messages| + 1
    decreases |messages|
  {
    var all := messages + [m];
    if messages == [] {
      assert all == [m] && all[1..] == [];
    } else {
      assert all[0] == messages[0] && all[1..] == messages[1..] + [m];
      FirstMore(messages[1..], m, identifier);
    }
  }

  lemma NamedMore(messages: seq<ThreadMessage>, m: ThreadMessage, identifier: bytes)
    ensures Named(messages + [m], identifier) ==
            if Named(messages, identifier) >= 0 then Named(messages, identifier)
            else if identifier != [] && identifier == m.messageId then |messages| else -1
  {
    hide FirstWith;
    FirstMore(messages, m, identifier);
  }

  /** The thread of the keyed messages: the exact forest, every parent key and
      depth read off it, and each flag set exactly when something was dropped. */
  ghost predicate IsThread(t: Thread, messages: seq<ThreadMessage>, keyed: seq<ThreadMessage>, limits: Limits) {
    var chosen := Earliest(messages, limits.maxThreadMessages);
    var candidates := Candidates(keyed, limits.maxReferenceCount);
    && Keyed(keyed, chosen) && |t.nodes| == |keyed|
    && Acyclic(Broken(candidates))
    && var forest := CutFrom(Broken(candidates), 0, limits.maxThreadDepth);
       && Acyclic(forest)
       && (forall i :: 0 <= i < |keyed| ==>
             t.nodes[i] == ThreadNode(keyed[i].key, keyed[i].messageId, if forest[i] >= 0 then keyed[forest[i]].key else [],
                                      ParentOf(keyed, keyed[i], limits.maxReferenceCount).1, Depth(forest, i), keyed[i]))
       && (forall i: nat :: i < |keyed| ==> Depth(forest, i) <= limits.maxThreadDepth)
       && (t.truncation.threadMessages <==> |messages| > limits.maxThreadMessages)
       && (t.truncation.references <==> exists i :: 0 <= i < |keyed| && |keyed[i].references| > limits.maxReferenceCount)
       && (t.truncation.threadCycle <==> exists i: nat :: i < |keyed| && TopOfCycle(candidates, i))
       && (t.truncation.threadDepth <==> exists i: nat :: i < |keyed| && Depth(Broken(candidates), i) > limits.maxThreadDepth)
  }

  method FindParents(keyed: seq<ThreadMessage>, identifiers: map<bytes, nat>, limit: nat)
    returns (candidates: links, missing: seq<bytes>, truncated: bool)
    requires Indexes(identifiers, keyed)
    ensures candidates == Candidates(keyed, limit) && |missing| == |keyed|
    ensures forall i :: 0 <= i < |keyed| ==> missing[i] == ParentOf(keyed, keyed[i], limit).1
    ensures truncated <==> exists i :: 0 <= i < |keyed| && |keyed[i].references| > limit
  {
    hide ParentOf;
    var found: seq<int> := [];
    missing, truncated := [], false;
    for index := 0 to |keyed|
      invariant |found| == |missing| == index
      invariant forall i :: 0 <= i < index ==> (found[i], missing[i]) == ParentOf(keyed, keyed[i], limit)
      invariant truncated <==> exists i :: 0 <= i < index && |keyed[i].references| > limit
    {
      var parent, missed, cut := ParentFor(keyed, keyed[index], identifiers, limit);
      found, missing, truncated := found + [parent], missing + [missed], truncated || cut;
    }
    assert found == Candidates(keyed, limit);
    candidates := found;
  }

  /** Links the earliest messages into a forest of bounded depth. */
  method BuildThread(messages: seq<ThreadMessage>, limits: Limits) returns (t: Thread)
    requires limits.maxThreadMessages > 0
    ensures exists keyed :: IsThread(t, messages, keyed, limits)
  {
    hide Earliest, Keyed, Indexes, ParentOf, CutFrom, Broken, Depth, TopOfCycle, Candidates;
    var ordered := EarliestThreadMessages(messages, limits.maxThreadMessages);
    var keyed, identifiers := KeyMessages(ordered);
    assert |keyed| == |ordered| by { KeyedLength(keyed, ordered); }
    var candidates, missing, references := FindParents(keyed, identifiers, limits.maxReferenceCount);
    CandidatesLength(keyed, limits.maxReferenceCount);
    var linked, cycle := BreakCycles(candidates);
    var parents, depths, cut := CutDepths(linked, limits.maxThreadDepth);
    var nodes: seq<ThreadNode> := [];
    for index := 0 to |keyed|
      invariant |nodes| == index
      invariant forall i :: 0 <= i < index ==>
                  nodes[i] == ThreadNode(keyed[i].key, keyed[i].messageId, if parents[i] >= 0 then keyed[parents[i]].key else [],
                                         missing[i], depths[i], keyed[i])
    {
      var m := keyed[index];
      nodes := nodes + [ThreadNode(m.key, m.messageId, if parents[index] >= 0 then keyed[parents[index]].key else [],
                                   missing[index], depths[index], m)];
    }
    t := Thread(nodes, Truncation(|messages| > limits.maxThreadMessages, references, cycle, cut));
    assert IsThread(t, messages, keyed, limits);
  }

  /** The nodes are the earliest messages of the input in their order, each under
      the key it was given. */
  lemma NodesAreEarliest(t: Thread, messages: seq<ThreadMessage>, keyed: seq<ThreadMessage>, limits: Limits)
    returns (places: seq<nat>)
    requires IsThread(t, messages, keyed, limits)
    ensures var ordered := Earliest(messages, limits.maxThreadMessages);
            Picks(ordered, messages, limits.maxThreadMessages, places) && |ordered| == |t.nodes|
    ensures forall i :: 0 <= i < |t.nodes| ==>
              places[i] < |messages| && t.nodes[i].message == messages[places[i]].(key := t.nodes[i].key)
  {
    hide Earliest, ParentOf, CutFrom, Broken, Depth, Candidates, FirstFree, Sooner;
    places := EarliestPlaces(messages, limits.maxThreadMessages);
  }

  lemma KeyedLength(keyed: seq<ThreadMessage>, messages: seq<ThreadMessage>)
    requires Keyed(keyed, messages)
    ensures |keyed| == |messages|
  {
  }

  lemma CandidatesLength(messages: seq<ThreadMessage>, limit: nat)
    ensures |Candidates(messages, limit)| == |messages|
  {
  }

  /** Every parent key names exactly one node of the thread, one level up; a
      node without one is at depth zero. */
  lemma ParentIsOneLevelUp(t: Thread, messages: seq<ThreadMessage>, keyed: seq<ThreadMessage>, limits: Limits, i: nat)
    requires IsThread(t, messages, keyed, limits) && i < |t.nodes|
    ensures t.nodes[i].parentKey == [] <==> t.nodes[i].depth == 0
    ensures t.nodes[i].parentKey != [] ==>
              exists j :: 0 <= j < |t.nodes| && t.nodes[j].key == t.nodes[i].parentKey
                          && t.nodes[i].depth == t.nodes[j].depth + 1
                          && forall k :: 0 <= k < |t.nodes| && k != j ==> t.nodes[k].key != t.nodes[i].parentKey
  {
    hide Earliest, ParentOf, CutFrom, Broken, Depth, Candidates, FirstFree;
    var forest := CutFrom(Broken(Candidates(keyed, limits.maxReferenceCount)), 0, limits.maxThreadDepth);
    DepthStep(forest, i);
    if forest[i] >= 0 {
      var j := forest[i];
      forall k | 0 <= k < |t.nodes| && k != j ensures t.nodes[k].key != t.nodes[j].key {
        if k < j {
          KeysDistinct(keyed, Earliest(messages, limits.maxThreadMessages), k, j);
        } else {
          KeysDistinct(keyed, Earliest(messages, limits.maxThreadMessages), j, k);
        }
      }
      assert t.nodes[j].key == t.nodes[i].parentKey;
    }
  }
}
