/** Which messages a thread keeps and in what order, said of the input itself:
    by time, then key, then identifier, then place, and none left out that
    should stand before one kept (bridge/threads.go:20-21, 104-178). */
module ThreadEarliest {
  import opened Octets
  import opened ThreadOrder
  import opened ThreadSelection

  /** a stands before b in a dictionary of octets: they agree up to a place where
      a has ended or has the smaller octet. */
  ghost predicate Dictionary(a: bytes, b: bytes) {
    exists k: nat :: k <= |a| && k < |b| && Differ(a, b, k)
  }

  predicate Differ(a: bytes, b: bytes, k: nat)
    requires k <= |a| && k < |b|
  {
    a[..k] == b[..k] && (k == |a| || a[k] < b[k])
  }

  lemma DifferFirst(a: bytes, b: bytes, k: nat)
    requires k <= |a| && k < |b| && Differ(a, b, k)
    ensures k > 0 ==> a[0] == b[0]
  {
    if k > 0 {
      assert a[..k][0] == b[..k][0];
    }
  }

  lemma {:induction false} DictionaryIff(a: bytes, b: bytes)
    ensures TextBefore(a, b) <==> Dictionary(a, b)
    decreases |a|
  {
    if a == [] || b == [] || a[0] != b[0] {
      if b != [] && (a == [] || a[0] < b[0]) {
        assert Differ(a, b, 0);
      }
      if Dictionary(a, b) {
        var k: nat :| k <= |a| && k < |b| && Differ(a, b, k);
        DifferFirst(a, b, k);
      }
    } else {
      var x, y := a[1..], b[1..];
      DictionaryIff(x, y);
      if Dictionary(x, y) {
        var k: nat :| k <= |x| && k < |y| && Differ(x, y, k);
        assert a[..k + 1] == [a[0]] + x[..k] && b[..k + 1] == [b[0]] + y[..k];
        assert Differ(a, b, k + 1);
      }
      if Dictionary(a, b) {
        var k: nat :| k <= |a| && k < |b| && Differ(a, b, k);
        assert k > 0;
        assert x[..k - 1] == a[..k][1..] && y[..k - 1] == b[..k][1..];
        assert Differ(x, y, k - 1);
      }
    }
  }

  /** The message at p belongs before the one at q. */
  ghost predicate Sooner(messages: seq<ThreadMessage>, p: nat, q: nat)
    requires p < |messages| && q < |messages|
  {
    var a, b := messages[p], messages[q];
    && a.receivedAt <= b.receivedAt
    && (a.receivedAt == b.receivedAt ==> a.key == b.key || Dictionary(a.key, b.key))
    && (a.receivedAt == b.receivedAt && a.key == b.key ==> a.messageId == b.messageId || Dictionary(a.messageId, b.messageId))
    && (a.receivedAt == b.receivedAt && a.key == b.key && a.messageId == b.messageId ==> p < q)
  }

  lemma SoonerIff(messages: seq<ThreadMessage>, p: nat, q: nat)
    requires p < |messages| && q < |messages|
    ensures Before(Indexed(messages[p], p), Indexed(messages[q], q)) <==> Sooner(messages, p, q)
  {
    hide TextBefore, Dictionary;
    var a, b := messages[p], messages[q];
    DictionaryIff(a.key, b.key);
    DictionaryIff(a.messageId, b.messageId);
    TextAntisymmetric(a.key, b.key);
    TextAntisymmetric(a.messageId, b.messageId);
  }

  /** The messages taken from these places of the input: as many as the limit
      allows, in order, and nothing left out that belongs before one of them. */
  ghost predicate Picks(ordered: seq<ThreadMessage>, messages: seq<ThreadMessage>, limit: nat, places: seq<nat>) {
    && |ordered| == |places| == (if |messages| < limit then |messages| else limit)
    && (forall i :: 0 <= i < |places| ==> places[i] < |messages| && ordered[i] == messages[places[i]])
    && (forall i, j :: 0 <= i < j < |places| ==> Sooner(messages, places[i], places[j]))
    && (forall i, p: nat :: 0 <= i < |places| && p < |messages| && p !in places ==> Sooner(messages, places[i], p))
  }

  lemma NumberDistinct(messages: seq<ThreadMessage>)
    ensures DistinctPlaces(Number(messages))
  {
  }

  /** What stands in the sorted input is a message and its place. */
  lemma SortedPlace(messages: seq<ThreadMessage>, y: Indexed)
    ensures y in Sorted(Number(messages)) <==> y.inputIndex < |messages| && y.message == messages[y.inputIndex]
  {
    hide Sorted;
    NumberDistinct(messages);
    SortedIs(Number(messages));
    if y.inputIndex < |messages| && y.message == messages[y.inputIndex] {
      assert Number(messages)[y.inputIndex] == y;
    }
  }

  /** The places of the earliest messages. */
  lemma EarliestPlaces(messages: seq<ThreadMessage>, limit: nat) returns (places: seq<nat>)
    ensures Picks(Earliest(messages, limit), messages, limit, places)
  {
    hide Sorted, Before, Sooner, Number;
    var s, n := Sorted(Number(messages)), Least(|messages|, limit);
    NumberDistinct(messages);
    SortedIs(Number(messages));
    SortedLength(messages);
    places := seq(n, i requires 0 <= i < n => s[i].inputIndex);
    forall i | 0 <= i < |s| ensures s[i].inputIndex < |messages| && s[i] == Indexed(messages[s[i].inputIndex], s[i].inputIndex) {
      SortedPlace(messages, s[i]);
    }
    forall i, j | 0 <= i < j < |s| ensures Sooner(messages, s[i].inputIndex, s[j].inputIndex) {
      SoonerIff(messages, s[i].inputIndex, s[j].inputIndex);
    }
    assert forall j :: 0 <= j < n ==> places[j] == s[j].inputIndex;
    forall i, p: nat | 0 <= i < |places| && p < |messages| && p !in places ensures Sooner(messages, places[i], p) {
      SortedPlace(messages, Indexed(messages[p], p));
      var j :| 0 <= j < |s| && s[j] == Indexed(messages[p], p);
      assert j >= n;
    }
  }

  /** Messages picked so are the earliest ones. */
  lemma PicksDecide(ordered: seq<ThreadMessage>, messages: seq<ThreadMessage>, limit: nat, places: seq<nat>)
    requires Picks(ordered, messages, limit, places)
    ensures ordered == Earliest(messages, limit)
  {
    hide Sorted, Before, Sooner, Number;
    var s := Sorted(Number(messages));
    NumberDistinct(messages);
    SortedIs(Number(messages));
    SortedLength(messages);
    var r := seq(|places|, i requires 0 <= i < |places| => Indexed(messages[places[i]], places[i]));
    forall i, j | 0 <= i < j < |r| ensures Before(r[i], r[j]) {
      SoonerIff(messages, places[i], places[j]);
    }
    forall y | y in r ensures y in s {
      SortedPlace(messages, y);
    }
    forall j | 0 <= j < |places| ensures Indexed(messages[places[j]], places[j]) in r {
      assert r[j] == Indexed(messages[places[j]], places[j]);
    }
    forall y, i | y in s && y !in r && 0 <= i < |r| ensures Before(r[i], y) {
      SortedPlace(messages, y);
      assert y.inputIndex !in places;
      SoonerIff(messages, places[i], y.inputIndex);
    }
    ChoiceIsPrefix(r, s, |r|);
    assert r[..|r|] == r;
  }

  /** The earliest messages are exactly a choice from the input that is in
      order and leaves out nothing that belongs before one chosen. */
  lemma EarliestIff(messages: seq<ThreadMessage>, limit: nat, ordered: seq<ThreadMessage>)
    ensures ordered == Earliest(messages, limit) <==> exists places :: Picks(ordered, messages, limit, places)
  {
    hide Picks, Earliest;
    if ordered == Earliest(messages, limit) {
      var places := EarliestPlaces(messages, limit);
      assert Picks(ordered, messages, limit, places);
    }
    if exists places :: Picks(ordered, messages, limit, places) {
      var places :| Picks(ordered, messages, limit, places);
      PicksDecide(ordered, messages, limit, places);
    }
  }
}
