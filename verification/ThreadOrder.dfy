/** The order of thread messages, and choosing the earliest of them with a
    bounded heap (bridge/threads.go:14-20, 104-178). */
module ThreadOrder {
  import opened Octets

  datatype ThreadMessage = ThreadMessage(key: bytes, messageId: bytes, references: seq<bytes>, inReplyTo: bytes, receivedAt: int)

  datatype Indexed = Indexed(message: ThreadMessage, inputIndex: nat)

  // ---- The order ----

  predicate TextBefore(a: bytes, b: bytes) {
    b != [] && (a == [] || a[0] < b[0] || (a[0] == b[0] && TextBefore(a[1..], b[1..])))
  }

  lemma {:induction false} TextTotal(a: bytes, b: bytes)
    ensures TextBefore(a, b) || TextBefore(b, a) || a == b
    decreases |a|
  {
    if a != [] && b != [] && a[0] == b[0] {
      TextTotal(a[1..], b[1..]);
      assert a == [a[0]] + a[1..] && b == [b[0]] + b[1..];
    }
  }

  lemma {:induction false} TextAntisymmetric(a: bytes, b: bytes)
    ensures !(TextBefore(a, b) && TextBefore(b, a)) && !TextBefore(a, a)
    decreases |a|
  {
    if a != [] {
      TextAntisymmetric(a[1..], if b != [] then b[1..] else []);
    }
  }

  lemma {:induction false} TextTransitive(a: bytes, b: bytes, c: bytes)
    requires TextBefore(a, b) && TextBefore(b, c)
    ensures TextBefore(a, c)
    decreases |a|
  {
    if a != [] && a[0] == b[0] == c[0] {
      TextTransitive(a[1..], b[1..], c[1..]);
    }
  }

  /** By time, then key, then message identifier, then place in the input. */
  predicate Before(l: Indexed, r: Indexed) {
    if l.message.receivedAt != r.message.receivedAt then l.message.receivedAt < r.message.receivedAt
    else if l.message.key != r.message.key then TextBefore(l.message.key, r.message.key)
    else if l.message.messageId != r.message.messageId then TextBefore(l.message.messageId, r.message.messageId)
    else l.inputIndex < r.inputIndex
  }

  lemma BeforeTotal(l: Indexed, r: Indexed)
    requires l.inputIndex != r.inputIndex
    ensures Before(l, r) || Before(r, l)
  {
    hide TextBefore;
    TextTotal(l.message.key, r.message.key);
    TextTotal(l.message.messageId, r.message.messageId);
  }

  lemma BeforeAntisymmetric(l: Indexed, r: Indexed)
    ensures !(Before(l, r) && Before(r, l)) && !Before(l, l)
  {
    hide TextBefore;
    TextAntisymmetric(l.message.key, r.message.key);
    TextAntisymmetric(l.message.messageId, r.message.messageId);
  }

  lemma BeforeTransitive(a: Indexed, b: Indexed, c: Indexed)
    requires Before(a, b) && Before(b, c)
    ensures Before(a, c)
  {
    hide TextBefore;
    BeforeAntisymmetric(a, b);
    BeforeAntisymmetric(b, c);
    TextAntisymmetric(a.message.key, b.message.key);
    TextAntisymmetric(a.message.messageId, b.message.messageId);
    if a.message.receivedAt == b.message.receivedAt == c.message.receivedAt {
      if a.message.key != b.message.key && b.message.key != c.message.key {
        TextTransitive(a.message.key, b.message.key, c.message.key);
      }
      if a.message.messageId != b.message.messageId && b.message.messageId != c.message.messageId
         && TextBefore(a.message.messageId, b.message.messageId) && TextBefore(b.message.messageId, c.message.messageId) {
        TextTransitive(a.message.messageId, b.message.messageId, c.message.messageId);
      }
    }
  }

  // ---- The reference: sort everything ----

  ghost predicate Ascending(s: seq<Indexed>) {
    forall i, j :: 0 <= i < j < |s| ==> Before(s[i], s[j])
  }

  function Number(messages: seq<ThreadMessage>): (r: seq<Indexed>)
    ensures |r| == |messages| && forall i :: 0 <= i < |r| ==> r[i] == Indexed(messages[i], i)
  {
    seq(|messages|, i requires 0 <= i < |messages| => Indexed(messages[i], i))
  }

  function InsertInOrder(s: seq<Indexed>, x: Indexed): seq<Indexed> {
    if s == [] || Before(x, s[0]) then [x] + s else [s[0]] + InsertInOrder(s[1..], x)
  }

  function Sorted(s: seq<Indexed>): seq<Indexed> {
    if s == [] then [] else InsertInOrder(Sorted(s[1..]), s[0])
  }

  /** Different places in the input. */
  ghost predicate DistinctPlaces(s: seq<Indexed>) {
    forall i, j :: 0 <= i < j < |s| ==> s[i].inputIndex != s[j].inputIndex
  }

  lemma {:induction false} InsertIs(s: seq<Indexed>, x: Indexed)
    requires Ascending(s) && forall i :: 0 <= i < |s| ==> s[i].inputIndex != x.inputIndex
    ensures var r := InsertInOrder(s, x);
            |r| == |s| + 1 && Ascending(r) && (forall y :: y in r <==> y == x || y in s)
    decreases |s|
  {
    hide Before;
    if s == [] {
    } else if Before(x, s[0]) {
      var r := [x] + s;
      forall i, j | 0 <= i < j < |r| ensures Before(r[i], r[j]) {
        if i == 0 && j > 1 {
          BeforeTransitive(x, s[0], s[j - 1]);
        }
      }
    } else {
      var tail := s[1..];
      assert forall i :: 0 <= i < |tail| ==> tail[i] == s[i + 1];
      InsertIs(tail, x);
      BeforeTotal(x, s[0]);
      var rest := InsertInOrder(tail, x);
      var r := [s[0]] + rest;
      assert s == [s[0]] + tail;
      forall i, j | 0 <= i < j < |r| ensures Before(r[i], r[j]) {
        if i == 0 {
          assert rest[j - 1] in rest;
          if rest[j - 1] != x {
            var k :| 0 <= k < |tail| && tail[k] == rest[j - 1];
          }
        }
      }
    }
  }

  lemma {:induction false} SortedIs(s: seq<Indexed>)
    requires DistinctPlaces(s)
    ensures |Sorted(s)| == |s| && Ascending(Sorted(s)) && forall y :: y in Sorted(s) <==> y in s
    decreases |s|
  {
    hide Before, InsertInOrder;
    if s != [] {
      var tail := s[1..];
      assert forall i :: 0 <= i < |tail| ==> tail[i] == s[i + 1];
      SortedIs(tail);
      forall i | 0 <= i < |Sorted(tail)| ensures Sorted(tail)[i].inputIndex != s[0].inputIndex {
        assert Sorted(tail)[i] in tail;
        var k :| 0 <= k < |tail| && tail[k] == Sorted(tail)[i];
      }
      InsertIs(Sorted(tail), s[0]);
      assert s == [s[0]] + tail;
    }
  }

  /** An ascending choice that leaves out only later elements is the beginning
      of the whole in order. */
  lemma {:induction false} ChoiceIsPrefix(r: seq<Indexed>, s: seq<Indexed>, k: nat)
    requires Ascending(r) && Ascending(s) && k <= |r| <= |s|
    requires forall y :: y in r ==> y in s
    requires forall y, i :: y in s && y !in r && 0 <= i < |r| ==> Before(r[i], y)
    ensures r[..k] == s[..k]
    decreases k
  {
    hide Before;
    if k > 0 {
      ChoiceIsPrefix(r, s, k - 1);
      var a, b := r[k - 1], s[k - 1];
      assert forall i :: 0 <= i < k - 1 ==> r[i] == r[..k - 1][i] == s[..k - 1][i] == s[i];
      assert a in r && b in s;
      var m :| 0 <= m < |s| && s[m] == a;
      if m < k - 1 {
        BeforeAntisymmetric(r[m], a);
      }
      if m > k - 1 {
        if b in r {
          var n :| 0 <= n < |r| && r[n] == b;
          if n < k - 1 {
            BeforeAntisymmetric(s[n], b);
          }
          BeforeAntisymmetric(a, b);
        } else {
          BeforeAntisymmetric(a, b);
        }
      }
      assert r[..k] == r[..k - 1] + [a] && s[..k] == s[..k - 1] + [b];
    }
  }
}
