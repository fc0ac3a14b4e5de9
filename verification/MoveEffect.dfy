/** Exactly what one UID MOVE and one UID STORE do, said of the mailboxes before
    and after, and exactly when they complete (internal/testkit/stateful.go:600-650,
    844-960). */
module MoveEffect {
  import opened Octets
  import opened MailStore
  import opened MailServer

  // ---- Choosing messages by place ----

  /** The places, in order, of exactly the messages that the ranges name, or of
      exactly the others. */
  ghost predicate Chooses(places: seq<nat>, messages: seq<Message>, ranges: seq<Span>, named: bool) {
    && (forall i, j :: 0 <= i < j < |places| ==> places[i] < places[j])
    && (forall i :: 0 <= i < |places| ==> places[i] < |messages|)
    && (forall p: nat :: p < |messages| ==> (p in places <==> InRanges(messages[p].uid, ranges) == named))
  }

  /** chosen are the messages at the places. */
  ghost predicate At(chosen: seq<Message>, messages: seq<Message>, places: seq<nat>) {
    && |chosen| == |places|
    && forall i :: 0 <= i < |places| ==> places[i] < |messages| && chosen[i] == messages[places[i]]
  }

  function Later(places: seq<nat>): (r: seq<nat>)
    ensures |r| == |places| && forall i :: 0 <= i < |r| ==> r[i] == places[i] + 1
  {
    seq(|places|, i requires 0 <= i < |places| => places[i] + 1)
  }

  /** The places of the named messages, or of the others. */
  function Places(messages: seq<Message>, ranges: seq<Span>, named: bool): seq<nat> {
    if messages == [] then []
    else (if InRanges(messages[0].uid, ranges) == named then [0] else []) + Later(Places(messages[1..], ranges, named))
  }

  /** The places behind the first are those of the rest, one further on. */
  lemma LaterHolds(later: seq<nat>, p: nat)
    ensures p + 1 in Later(later) <==> p in later
    ensures 0 !in Later(later)
  {
    if p in later {
      var i :| 0 <= i < |later| && later[i] == p;
      assert Later(later)[i] == p + 1;
    }
  }

  lemma ChoosesMore(messages: seq<Message>, ranges: seq<Span>, named: bool, later: seq<nat>)
    requires messages != [] && Chooses(later, messages[1..], ranges, named)
    ensures Chooses((if InRanges(messages[0].uid, ranges) == named then [0] else []) + Later(later), messages, ranges, named)
  {
    hide InRanges;
    var tail := messages[1..];
    var first := if InRanges(messages[0].uid, ranges) == named then [0] else [];
    var places := first + Later(later);
    forall p: nat | p < |messages| ensures p in places <==> InRanges(messages[p].uid, ranges) == named {
      assert p in places <==> p in first || p in Later(later);
      if p > 0 {
        assert messages[p] == tail[p - 1];
        LaterHolds(later, p - 1);
      } else {
        LaterHolds(later, 0);
      }
    }
  }

  lemma AtMore(messages: seq<Message>, chosen: seq<Message>, later: seq<nat>, first: bool)
    requires messages != [] && At(chosen, messages[1..], later)
    ensures At((if first then [messages[0]] else []) + chosen, messages, (if first then [0] else []) + Later(later))
  {
    var places := (if first then [0] else []) + Later(later);
    var all := (if first then [messages[0]] else []) + chosen;
    var n := if first then 1 else 0;
    forall i | 0 <= i < |places| ensures places[i] < |messages| && all[i] == messages[places[i]] {
      if i >= n {
        assert places[i] == later[i - n] + 1 && all[i] == chosen[i - n];
      }
    }
  }

  function Chosen(messages: seq<Message>, ranges: seq<Span>, named: bool): seq<Message> {
    if named then Picked(messages, ranges) else Kept(messages, ranges)
  }

  lemma {:induction false} PlacesChoose(messages: seq<Message>, ranges: seq<Span>, named: bool)
    ensures Chooses(Places(messages, ranges, named), messages, ranges, named)
    ensures At(Chosen(messages, ranges, named), messages, Places(messages, ranges, named))
    decreases |messages|
  {
    hide InRanges, Chooses, At;
    if messages == [] {
      NoneChosen(ranges, named);
    } else {
      var later := Places(messages[1..], ranges, named);
      PlacesChoose(messages[1..], ranges, named);
      ChoosesMore(messages, ranges, named, later);
      AtMore(messages, Chosen(messages[1..], ranges, named), later, InRanges(messages[0].uid, ranges) == named);
    }
  }

  lemma NoneChosen(ranges: seq<Span>, named: bool)
    ensures Chooses([], [], ranges, named) && At([], [], [])
  {
  }

  /** The places are determined by what they choose. */
  lemma ChoosesOnce(a: seq<nat>, b: seq<nat>, messages: seq<Message>, ranges: seq<Span>, named: bool)
    requires Chooses(a, messages, ranges, named) && Chooses(b, messages, ranges, named)
    ensures a == b
  {
    hide InRanges;
    forall p ensures p in a <==> p in b {
      if p in a || p in b {
        assert p < |messages|;
      }
    }
    AscendingSame(a, b);
  }

  lemma {:induction false} AscendingSame(a: seq<nat>, b: seq<nat>)
    requires forall i, j :: 0 <= i < j < |a| ==> a[i] < a[j]
    requires forall i, j :: 0 <= i < j < |b| ==> b[i] < b[j]
    requires forall p :: p in a <==> p in b
    ensures a == b
    decreases |a|
  {
    assert a != [] ==> a[0] in b;
    assert b != [] ==> b[0] in a;
    if a != [] {
      assert a[0] == b[0];
      forall p ensures p in a[1..] <==> p in b[1..] {
        assert p in a[1..] <==> p in a && p != a[0] by { TailHolds(a, p); }
        assert p in b[1..] <==> p in b && p != b[0] by { TailHolds(b, p); }
      }
      AscendingSame(a[1..], b[1..]);
      assert a == [a[0]] + a[1..] && b == [b[0]] + b[1..];
    }
  }

  lemma TailHolds(a: seq<nat>, p: nat)
    requires a != [] && forall i, j :: 0 <= i < j < |a| ==> a[i] < a[j]
    ensures p in a[1..] <==> p in a && p != a[0]
  {
    if p in a && p != a[0] {
      var i :| 0 <= i < |a| && a[i] == p;
      assert a[1..][i - 1] == p;
    }
  }

  // ---- UID MOVE ----

  /** What lies between the store before and the store after: the mailbox at d
      gained the named messages of the one at k, in their order and with their
      flags and bodies, under the UIDs from its UIDNEXT on; the one at k kept
      the others; no other mailbox changed. */
  ghost predicate Moved(s: Store, t: Store, k: nat, d: nat, ranges: seq<Span>) {
    && k < |s| && d < |s| && k != d && |t| == |s|
    && (forall j :: 0 <= j < |s| && j != k && j != d ==> t[j] == s[j])
    && (exists kept :: Chooses(kept, s[k].messages, ranges, false) && At(t[k].messages, s[k].messages, kept))
    && t[k] == s[k].(messages := t[k].messages)
    && (exists named :: Chooses(named, s[k].messages, ranges, true) && Arrived(s[d], t[d], s[k].messages, named))
  }

  ghost predicate Arrived(d: Mailbox, later: Mailbox, messages: seq<Message>, named: seq<nat>) {
    && later == d.(messages := later.messages, uidNext := d.uidNext + |named|)
    && |later.messages| == |d.messages| + |named|
    && (forall i :: 0 <= i < |d.messages| ==> later.messages[i] == d.messages[i])
    && forall i :: 0 <= i < |named| ==>
         named[i] < |messages| && later.messages[|d.messages| + i] == Message(d.uidNext + i, messages[named[i]].flags, messages[named[i]].body)
  }

  /** Source and destination of a move that the server carries out. */
  ghost predicate Movable(s: Store, at: Selection, ranges: seq<Span>, target: bytes, k: nat, d: nat) {
    && k < |s| && d < |s| && k != d && NameMatches(s[k].name, at.selected) && NameMatches(s[d].name, target)
    && (forall a :: a in s[d].attributes ==> !FoldIs(a, NOSELECT) && !FoldIs(a, NONEXISTENT))
    && forall named :: Chooses(named, s[k].messages, ranges, true) ==> s[d].uidNext + |named| <= MAX_UINT32
  }

  lemma FoundOnly(s: Store, name: bytes, k: nat)
    requires ValidStore(s) && k < |s| && NameMatches(s[k].name, name)
    ensures FindMailbox(s, name) == k
  {
    hide FoldIs, ValidMailbox;
    var f := FindMailbox(s, name);
    assert f < k ==> !NameMatches(s[f].name, s[k].name);
  }

  /** Room for the named messages, by their places or by their number. */
  lemma RoomIs(messages: seq<Message>, ranges: seq<Span>, next: nat)
    ensures (forall named :: Chooses(named, messages, ranges, true) ==> next + |named| <= MAX_UINT32)
            <==> next + |Picked(messages, ranges)| <= MAX_UINT32
  {
    hide Chooses, InRanges, Picked;
    var places := Places(messages, ranges, true);
    PlacesChoose(messages, ranges, true);
    forall named | Chooses(named, messages, ranges, true) ensures named == places {
      ChoosesOnce(named, places, messages, ranges, true);
    }
  }

  /** UID MOVE completes exactly when moves are enabled, a mailbox is selected
      for writing, another mailbox of the target's name may be selected, and its
      UIDs do not run out. It is malformed exactly without the extension or a
      selection. */
  lemma MoveOkIff(s: Store, enabled: bool, at: Selection, ranges: seq<Span>, target: bytes)
    requires ValidStore(s)
    ensures var completion := MoveCommand(s, enabled, at, ranges, target).1;
            && (completion == Ok <==> enabled && at.selected != [] && !at.readOnly && exists k: nat, d: nat :: Movable(s, at, ranges, target, k, d))
            && (completion == Bad <==> !enabled || at.selected == [])
  {
    hide ValidStore, NameMatches, FoldIs, Chooses, InRanges, Picked, Kept, Received;
    var completion := MoveCommand(s, enabled, at, ranges, target).1;
    var k, d := FindMailbox(s, at.selected), FindMailbox(s, target);
    if completion == Ok {
      RoomIs(s[k].messages, ranges, s[d].uidNext);
      assert Movable(s, at, ranges, target, k, d);
    }
    forall x: nat, y: nat | Movable(s, at, ranges, target, x, y)
      ensures x == k && y == d && (enabled && at.selected != [] && !at.readOnly ==> completion == Ok)
    {
      FoundOnly(s, at.selected, x);
      FoundOnly(s, target, y);
      RoomIs(s[x].messages, ranges, s[y].uidNext);
    }
  }

  lemma ReceivedArrived(d: Mailbox, messages: seq<Message>, picked: seq<Message>, places: seq<nat>)
    requires At(picked, messages, places)
    ensures Arrived(d, Received(d, picked), messages, places)
  {
    var later, moved := Received(d, picked), Renumbered(picked, d.uidNext);
    forall i | 0 <= i < |places|
      ensures later.messages[|d.messages| + i] == Message(d.uidNext + i, messages[places[i]].flags, messages[places[i]].body)
    {
      assert later.messages[|d.messages| + i] == moved[i];
    }
  }

  /** A completed UID MOVE did exactly that move, between the two mailboxes of
      these names. */
  lemma MoveExact(s: Store, enabled: bool, at: Selection, ranges: seq<Span>, target: bytes, k: nat, d: nat)
    requires ValidStore(s) && k < |s| && NameMatches(s[k].name, at.selected) && d < |s| && NameMatches(s[d].name, target)
    requires MoveCommand(s, enabled, at, ranges, target).1 == Ok
    ensures Moved(s, MoveCommand(s, enabled, at, ranges, target).0, k, d, ranges)
  {
    hide ValidStore, NameMatches, FoldIs, Chooses, InRanges, Picked, Kept, At, Arrived, Received, Selectable;
    FoundOnly(s, at.selected, k);
    FoundOnly(s, target, d);
    var messages := s[k].messages;
    PlacesChoose(messages, ranges, true);
    PlacesChoose(messages, ranges, false);
    ReceivedArrived(s[d], messages, Picked(messages, ranges), Places(messages, ranges, true));
  }

  /** A move of one UID that was there: its message, and it alone, is now the
      last of the destination. */
  lemma OneMoved(s: Store, t: Store, k: nat, d: nat, uid: nat, p: nat)
    requires ValidStore(s) && Moved(s, t, k, d, [Span(uid, uid)]) && p < |s[k].messages| && s[k].messages[p].uid == uid
    ensures t[d].messages == s[d].messages + [s[k].messages[p].(uid := s[d].uidNext)] && t[d].uidNext == s[d].uidNext + 1
    ensures t[k].messages == s[k].messages[..p] + s[k].messages[p + 1..]
  {
    hide NameMatches, FoldIs, Chooses;
    var messages, ranges := s[k].messages, [Span(uid, uid)];
    assert ValidMailbox(s[k]);
    NamedAlone(messages, uid, p);
    var named :| Chooses(named, messages, ranges, true) && Arrived(s[d], t[d], messages, named);
    ChoosesOnce(named, [p], messages, ranges, true);
    assert t[d].messages[|s[d].messages|] == Message(s[d].uidNext, messages[p].flags, messages[p].body) by {
      assert named[0] == p;
      assert t[d].messages[|s[d].messages| + 0] == Message(s[d].uidNext + 0, messages[named[0]].flags, messages[named[0]].body);
    }
    var kept :| Chooses(kept, messages, ranges, false) && At(t[k].messages, messages, kept);
    ChoosesOnce(kept, AllBut(|messages|, p), messages, ranges, false);
  }

  /** Every place below n but p. */
  function AllBut(n: nat, p: nat): (r: seq<nat>)
    requires p < n
    ensures |r| == n - 1 && forall i :: 0 <= i < |r| ==> r[i] == if i < p then i else i + 1
  {
    seq(n - 1, i requires 0 <= i < n - 1 => if i < p then i else i + 1)
  }

  lemma NamedAlone(messages: seq<Message>, uid: nat, p: nat)
    requires Ascending(messages) && p < |messages| && messages[p].uid == uid
    ensures Chooses([p], messages, [Span(uid, uid)], true) && Chooses(AllBut(|messages|, p), messages, [Span(uid, uid)], false)
  {
    var ranges := [Span(uid, uid)];
    forall q: nat | q < |messages| ensures InRanges(messages[q].uid, ranges) <==> q == p {
      if q == p {
        assert ranges[0].start <= messages[q].uid <= ranges[0].end;
      }
    }
    hide InRanges;
    var others := AllBut(|messages|, p);
    forall q: nat | q < |messages| ensures q in others <==> q != p {
      if q < p {
        assert others[q] == q;
      } else if q > p {
        assert others[q - 1] == q;
      }
    }
  }

  // ---- UID STORE ----

  /** UID STORE completes exactly on a mailbox selected for writing that is still
      there, and is malformed exactly without a selection. */
  lemma StoreOkIff(s: Store, at: Selection, ranges: seq<Span>, seen: bool)
    ensures var completion := StoreCommand(s, at, ranges, seen).1;
            && (completion == Ok <==> at.selected != [] && !at.readOnly && exists k :: 0 <= k < |s| && NameMatches(s[k].name, at.selected))
            && (completion == Bad <==> at.selected == [])
  {
    hide NameMatches, Stored;
    var k := FindMailbox(s, at.selected);
    if k < |s| {
      assert NameMatches(s[k].name, at.selected);
    }
  }
}
