/** The mailboxes of the stateful fixture and what UID MOVE and UID STORE do to
    them (internal/testkit/stateful.go:68-88, 194-295, 844-960). */
module MailStore {
  import opened Octets
  import opened Wrappers

  type flag = bytes

  const SEEN: flag := [0x5c, 0x53, 0x45, 0x45, 0x4e]
  const NOSELECT: flag := [0x5c, 0x4e, 0x4f, 0x53, 0x45, 0x4c, 0x45, 0x43, 0x54]
  const NONEXISTENT: flag := [0x5c, 0x4e, 0x4f, 0x4e, 0x45, 0x58, 0x49, 0x53, 0x54, 0x45, 0x4e, 0x54]
  const INBOX: bytes := [0x49, 0x4e, 0x42, 0x4f, 0x58]

  datatype Message = Message(uid: nat, flags: seq<flag>, body: bytes)

  datatype Mailbox = Mailbox(name: bytes, attributes: seq<flag>, uidValidity: nat, uidNext: nat, messages: seq<Message>)

  type Store = seq<Mailbox>

  datatype Span = Span(start: nat, end: nat)

  /** UIDs strictly ascend from 1 and stay below a UIDNEXT that is a valid
      nonzero 32-bit number. */
  ghost predicate ValidMailbox(m: Mailbox) {
    && Ascending(m.messages)
    && 1 <= m.uidNext <= MAX_UINT32
    && forall i :: 0 <= i < |m.messages| ==> 1 <= m.messages[i].uid < m.uidNext
  }

  ghost predicate Ascending(messages: seq<Message>) {
    forall i, j :: 0 <= i < j < |messages| ==> messages[i].uid < messages[j].uid
  }

  predicate NameMatches(stored: bytes, requested: bytes) {
    if FoldIs(stored, INBOX) then FoldIs(requested, INBOX) else stored == requested
  }

  ghost predicate ValidStore(s: Store) {
    && (forall i :: 0 <= i < |s| ==> ValidMailbox(s[i]))
    && (forall i, j :: 0 <= i < j < |s| ==> !NameMatches(s[i].name, s[j].name))
  }

  predicate SelectableAttributes(attributes: seq<flag>) {
    forall i :: 0 <= i < |attributes| ==> !FoldIs(attributes[i], NOSELECT) && !FoldIs(attributes[i], NONEXISTENT)
  }

  predicate Selectable(m: Mailbox) {
    SelectableAttributes(m.attributes)
  }

  /** The index of the mailbox called name, or |s|. */
  function FindMailbox(s: Store, name: bytes): (k: nat)
    ensures k <= |s|
    ensures k < |s| ==> NameMatches(s[k].name, name)
    ensures forall i :: 0 <= i < k ==> !NameMatches(s[i].name, name)
  {
    if s == [] || NameMatches(s[0].name, name) then 0 else 1 + FindMailbox(s[1..], name)
  }

  predicate InRanges(uid: nat, ranges: seq<Span>) {
    exists i :: 0 <= i < |ranges| && ranges[i].start <= uid <= ranges[i].end
  }

  ghost function Uids(messages: seq<Message>): set<nat> {
    set i | 0 <= i < |messages| :: messages[i].uid
  }

  // ---- The effect of UID MOVE ----

  function Kept(messages: seq<Message>, ranges: seq<Span>): seq<Message> {
    if messages == [] then []
    else (if InRanges(messages[0].uid, ranges) then [] else [messages[0]]) + Kept(messages[1..], ranges)
  }

  function Picked(messages: seq<Message>, ranges: seq<Span>): seq<Message> {
    if messages == [] then []
    else (if InRanges(messages[0].uid, ranges) then [messages[0]] else []) + Picked(messages[1..], ranges)
  }

  /** The messages under new UIDs from next upwards. */
  function Renumbered(messages: seq<Message>, next: nat): (r: seq<Message>)
    ensures |r| == |messages|
    ensures forall i :: 0 <= i < |r| ==> r[i] == messages[i].(uid := next + i)
  {
    seq(|messages|, i requires 0 <= i < |messages| => messages[i].(uid := next + i))
  }

  /** The sequence numbers of the picked messages, highest first. */
  function Expunges(messages: seq<Message>, ranges: seq<Span>, before: nat): seq<nat> {
    if messages == [] then []
    else Expunges(messages[1..], ranges, before + 1) + (if InRanges(messages[0].uid, ranges) then [before + 1] else [])
  }

  function Received(m: Mailbox, picked: seq<Message>): Mailbox {
    m.(messages := m.messages + Renumbered(picked, m.uidNext), uidNext := m.uidNext + |picked|)
  }

  // ---- Conservation ----

  datatype Content = Content(flags: seq<flag>, body: bytes)

  function ContentsOf(messages: seq<Message>): (r: seq<Content>)
    ensures |r| == |messages| && forall i :: 0 <= i < |r| ==> r[i] == Content(messages[i].flags, messages[i].body)
  {
    seq(|messages|, i requires 0 <= i < |messages| => Content(messages[i].flags, messages[i].body))
  }

  ghost function Contents(messages: seq<Message>): multiset<Content> {
    multiset(ContentsOf(messages))
  }

  lemma ContentsConcat(a: seq<Message>, b: seq<Message>)
    ensures Contents(a + b) == Contents(a) + Contents(b)
  {
    assert ContentsOf(a + b) == ContentsOf(a) + ContentsOf(b);
  }

  lemma RenumberedContents(messages: seq<Message>, next: nat)
    ensures Contents(Renumbered(messages, next)) == Contents(messages)
  {
    assert ContentsOf(Renumbered(messages, next)) == ContentsOf(messages);
  }

  lemma {:induction false} PartedContents(messages: seq<Message>, ranges: seq<Span>)
    ensures Contents(Kept(messages, ranges)) + Contents(Picked(messages, ranges)) == Contents(messages)
  {
    hide InRanges, Contents;
    if messages == [] {
      ContentsConcat([], []);
      assert [] + messages == messages;
    } else {
      var (head, tail) := ([messages[0]], messages[1..]);
      PartedContents(tail, ranges);
      ContentsConcat(head, tail);
      ContentsConcat(head, Kept(tail, ranges));
      ContentsConcat(head, Picked(tail, ranges));
      assert head + tail == messages;
      assert [] + Kept(tail, ranges) == Kept(tail, ranges);
      assert [] + Picked(tail, ranges) == Picked(tail, ranges);
    }
  }

  /** Every UID kept was there and not named; every UID named is gone. */
  lemma {:induction false} KeptUids(messages: seq<Message>, ranges: seq<Span>)
    ensures Uids(Kept(messages, ranges)) == (set u | u in Uids(messages) && !InRanges(u, ranges))
    ensures Uids(Picked(messages, ranges)) == (set u | u in Uids(messages) && InRanges(u, ranges))
  {
    hide InRanges;
    if messages != [] {
      KeptUids(messages[1..], ranges);
      var (head, tail) := (messages[0], messages[1..]);
      assert messages == [head] + tail;
      UidsConcat([head], tail);
      UidsConcat([head], Kept(tail, ranges));
      UidsConcat([head], Picked(tail, ranges));
      assert [] + Kept(tail, ranges) == Kept(tail, ranges) && [] + Picked(tail, ranges) == Picked(tail, ranges);
      assert Uids([head]) == {head.uid} by { assert [head][0].uid in Uids([head]); }
    }
  }

  lemma UidsConcat(a: seq<Message>, b: seq<Message>)
    ensures Uids(a + b) == Uids(a) + Uids(b)
  {
    var s := a + b;
    assert forall i :: 0 <= i < |a| ==> s[i] == a[i];
    forall u | u in Uids(b) ensures u in Uids(s) {
      var i :| 0 <= i < |b| && b[i].uid == u;
      assert s[|a| + i].uid == u;
    }
    forall u | u in Uids(a) ensures u in Uids(s) {
      var i :| 0 <= i < |a| && a[i].uid == u;
      assert s[i].uid == u;
    }
  }

  lemma {:induction false} KeptAscends(messages: seq<Message>, ranges: seq<Span>)
    requires Ascending(messages)
    ensures Ascending(Kept(messages, ranges))
  {
    hide InRanges;
    if messages != [] {
      var tail := messages[1..];
      assert forall i :: 0 <= i < |tail| ==> tail[i] == messages[i + 1];
      KeptAscends(tail, ranges);
      KeptUids(tail, ranges);
      var rest := Kept(tail, ranges);
      forall j | 0 <= j < |rest| ensures messages[0].uid < rest[j].uid {
        assert rest[j].uid in Uids(rest);
        assert rest[j].uid in Uids(tail);
      }
    }
  }

  /** The source after the move is a valid mailbox that lost exactly the named
      UIDs; the destination is one that kept what it had and gained the moved
      messages, in order, under UIDs it never used before; nothing else of
      either changed, and no message was made or lost. */
  lemma MoveConserves(source: Mailbox, destination: Mailbox, ranges: seq<Span>)
    requires ValidMailbox(source) && ValidMailbox(destination)
    requires destination.uidNext + |Picked(source.messages, ranges)| <= MAX_UINT32
    ensures var kept, received := source.(messages := Kept(source.messages, ranges)), Received(destination, Picked(source.messages, ranges));
            && ValidMailbox(kept) && ValidMailbox(received)
            && Contents(kept.messages) + Contents(received.messages) == Contents(source.messages) + Contents(destination.messages)
            && Uids(kept.messages) == (set u | u in Uids(source.messages) && !InRanges(u, ranges))
            && (forall u :: u in Uids(received.messages) - Uids(destination.messages) ==> u >= destination.uidNext)
  {
    hide InRanges, Contents, Uids, Kept, Picked;
    var kept, picked := Kept(source.messages, ranges), Picked(source.messages, ranges);
    KeptAscends(source.messages, ranges);
    KeptUids(source.messages, ranges);
    KeptBelow(source.messages, kept, source.uidNext);
    ReceivedValid(destination, picked);
    var moved := Renumbered(picked, destination.uidNext);
    PartedContents(source.messages, ranges);
    RenumberedContents(picked, destination.uidNext);
    ContentsConcat(destination.messages, moved);
    UidsConcat(destination.messages, moved);
    NewUids(picked, destination.uidNext);
  }

  lemma NewUids(picked: seq<Message>, next: nat)
    ensures forall u :: u in Uids(Renumbered(picked, next)) ==> u >= next
  {
  }

  lemma KeptBelow(messages: seq<Message>, kept: seq<Message>, next: nat)
    requires Uids(kept) <= Uids(messages) && forall i :: 0 <= i < |messages| ==> 1 <= messages[i].uid < next
    ensures forall i :: 0 <= i < |kept| ==> 1 <= kept[i].uid < next
  {
    forall i | 0 <= i < |kept| ensures 1 <= kept[i].uid < next {
      assert kept[i].uid in Uids(messages);
    }
  }

  lemma ReceivedValid(m: Mailbox, picked: seq<Message>)
    requires ValidMailbox(m) && m.uidNext + |picked| <= MAX_UINT32
    ensures ValidMailbox(Received(m, picked))
  {
    var all, moved := Received(m, picked).messages, Renumbered(picked, m.uidNext);
    assert forall i :: |m.messages| <= i < |all| ==> all[i] == moved[i - |m.messages|];
  }

  // ---- Replaying the expunges ----

  function Remove(messages: seq<Message>, number: nat): seq<Message>
    requires 1 <= number <= |messages|
  {
    messages[..number - 1] + messages[number..]
  }

  /** Each expunge in turn removes the message of its number at that moment. */
  function Replay(messages: seq<Message>, expunges: seq<nat>): Option<seq<Message>> {
    if expunges == [] then Some(messages)
    else if 1 <= expunges[0] <= |messages| then Replay(Remove(messages, expunges[0]), expunges[1..])
    else None
  }

  lemma {:induction false} ReplayConcat(messages: seq<Message>, a: seq<nat>, b: seq<nat>)
    ensures Replay(messages, a + b) == match Replay(messages, a) case None => None case Some(m) => Replay(m, b)
    decreases |a|
  {
    if a == [] {
      assert a + b == b;
    } else {
      assert (a + b)[1..] == a[1..] + b;
      if 1 <= a[0] <= |messages| {
        ReplayConcat(Remove(messages, a[0]), a[1..], b);
      }
    }
  }

  /** Removing number |prefix| + 1 takes out just the message there. */
  lemma RemoveAt(prefix: seq<Message>, head: Message, rest: seq<Message>)
    ensures Replay(prefix + [head] + rest, [|prefix| + 1]) == Some(prefix + rest)
  {
    var all := prefix + [head] + rest;
    assert all[..|prefix|] == prefix && all[|prefix| + 1..] == rest;
    assert [|prefix| + 1][1..] == [];
  }

  /** A client that applies the EXPUNGE lines one by one to the old list has
      exactly the new list (section 7.4.1 of RFC 3501). */
  lemma {:induction false} ExpungesReplay(prefix: seq<Message>, messages: seq<Message>, ranges: seq<Span>)
    ensures Replay(prefix + messages, Expunges(messages, ranges, |prefix|)) == Some(prefix + Kept(messages, ranges))
    decreases |messages|
  {
    hide InRanges, Replay;
    if messages == [] {
      assert prefix + messages == prefix && prefix + Kept(messages, ranges) == prefix;
      ReplayNone(prefix);
    } else {
      var (head, tail) := (messages[0], messages[1..]);
      var longer := prefix + [head];
      assert longer + tail == prefix + messages;
      ExpungesReplay(longer, tail, ranges);
      var later, rest := Expunges(tail, ranges, |prefix| + 1), Kept(tail, ranges);
      if InRanges(head.uid, ranges) {
        ReplayConcat(prefix + messages, later, [|prefix| + 1]);
        RemoveAt(prefix, head, rest);
        assert [] + rest == rest;
      } else {
        assert later + [] == later;
        assert longer + rest == prefix + ([head] + rest);
      }
    }
  }

  lemma ReplayNone(messages: seq<Message>)
    ensures Replay(messages, []) == Some(messages)
  {
  }

  /** The source UIDs of a move with the destination UIDs they became, in order. */
  function CopyUid(picked: seq<Message>, next: nat): (r: seq<(nat, nat)>)
    ensures |r| == |picked| && forall i :: 0 <= i < |r| ==> r[i] == (picked[i].uid, next + i)
  {
    seq(|picked|, i requires 0 <= i < |picked| => (picked[i].uid, next + i))
  }

  lemma {:induction false} PickedHolds(messages: seq<Message>, ranges: seq<Span>)
    requires Ascending(messages)
    ensures Ascending(Picked(messages, ranges)) && forall x :: x in Picked(messages, ranges) ==> x in messages
    decreases |messages|
  {
    hide InRanges, Ascending;
    if messages == [] {
      NoneAscend();
    } else {
      var tail := messages[1..];
      AscendingTail(messages);
      PickedHolds(tail, ranges);
      AscendingMore(messages[0], Picked(tail, ranges));
      assert [] + Picked(tail, ranges) == Picked(tail, ranges);
    }
  }

  lemma NoneAscend()
    ensures Ascending([])
  {
  }

  lemma AscendingTail(messages: seq<Message>)
    requires Ascending(messages) && messages != []
    ensures Ascending(messages[1..]) && forall x :: x in messages[1..] ==> messages[0].uid < x.uid
  {
    assert forall i :: 0 <= i < |messages| - 1 ==> messages[1..][i] == messages[i + 1];
  }

  lemma AscendingMore(first: Message, rest: seq<Message>)
    requires Ascending(rest) && forall x :: x in rest ==> first.uid < x.uid
    ensures Ascending([first] + rest)
  {
    var all := [first] + rest;
    assert forall i :: 0 < i < |all| ==> all[i] == rest[i - 1] && all[i] in rest;
  }

  lemma SameUid(messages: seq<Message>, x: Message, y: Message)
    requires Ascending(messages) && x in messages && y in messages && x.uid == y.uid
    ensures x == y
  {
    var i :| 0 <= i < |messages| && messages[i] == x;
    var j :| 0 <= j < |messages| && messages[j] == y;
  }

  /** Two messages that a COPYUID pair names are one: flags and body are the
      same. */
  ghost predicate PairNames(pair: (nat, nat), from: seq<Message>, to: seq<Message>) {
    forall x, y :: x in from && y in to && x.uid == pair.0 && y.uid == pair.1 ==> x.flags == y.flags && x.body == y.body
  }

  /** The COPYUID pairs: both columns ascend, the first holds exactly the named
      UIDs of the source, and each pair names one message before and after. */
  lemma CopyUidPairs(source: Mailbox, destination: Mailbox, ranges: seq<Span>)
    requires ValidMailbox(source) && ValidMailbox(destination)
    requires destination.uidNext + |Picked(source.messages, ranges)| <= MAX_UINT32
    ensures var picked := Picked(source.messages, ranges);
            var pairs := CopyUid(picked, destination.uidNext);
            && (forall i, j :: 0 <= i < j < |pairs| ==> pairs[i].0 < pairs[j].0 && pairs[i].1 < pairs[j].1)
            && (set i | 0 <= i < |pairs| :: pairs[i].0) == (set u | u in Uids(source.messages) && InRanges(u, ranges))
            && forall i :: 0 <= i < |pairs| ==> PairNames(pairs[i], source.messages, Received(destination, picked).messages)
  {
    hide InRanges, Kept, Picked;
    var picked := Picked(source.messages, ranges);
    var pairs := CopyUid(picked, destination.uidNext);
    KeptUids(source.messages, ranges);
    assert (set i | 0 <= i < |pairs| :: pairs[i].0) == Uids(picked);
    PickedHolds(source.messages, ranges);
    ReceivedValid(destination, picked);
    var received := Received(destination, picked).messages;
    forall i | 0 <= i < |pairs| ensures PairNames(pairs[i], source.messages, received) {
      var moved := received[|destination.messages| + i];
      assert moved == picked[i].(uid := destination.uidNext + i) && moved in received && picked[i] in source.messages;
      forall x, y | x in source.messages && y in received && x.uid == pairs[i].0 && y.uid == pairs[i].1
        ensures x.flags == y.flags && x.body == y.body
      {
        SameUid(source.messages, x, picked[i]);
        SameUid(received, y, moved);
      }
    }
  }

  // ---- The effect of UID STORE ----

  predicate Seen(flags: seq<flag>) {
    exists i :: 0 <= i < |flags| && FoldIs(flags[i], SEEN)
  }

  function WithoutSeen(flags: seq<flag>): seq<flag> {
    if flags == [] then []
    else (if FoldIs(flags[0], SEEN) then [] else [flags[0]]) + WithoutSeen(flags[1..])
  }

  function SetSeen(m: Message, seen: bool): Message {
    if Seen(m.flags) == seen then m
    else if seen then m.(flags := m.flags + [SEEN_AS_WRITTEN])
    else m.(flags := WithoutSeen(m.flags))
  }

  const SEEN_AS_WRITTEN: flag := [0x5c, 0x53, 0x65, 0x65, 0x6e]

  lemma {:induction false} WithoutSeenIs(flags: seq<flag>)
    ensures !Seen(WithoutSeen(flags))
    ensures WithoutSeen(WithoutSeen(flags)) == WithoutSeen(flags)
  {
    hide FoldIs;
    if flags != [] {
      WithoutSeenIs(flags[1..]);
      var rest := WithoutSeen(flags[1..]);
      assert ([flags[0]] + rest)[1..] == rest;
      assert [] + rest == rest;
    }
  }

  lemma {:induction false} WithoutSeenAppend(flags: seq<flag>, last: flag)
    requires FoldIs(last, SEEN)
    ensures WithoutSeen(flags + [last]) == WithoutSeen(flags)
  {
    hide FoldIs;
    var all := flags + [last];
    if flags == [] {
      assert all == [last] && all[1..] == [] && WithoutSeen(all[1..]) == [];
    } else {
      assert all[0] == flags[0] && all[1..] == flags[1..] + [last];
      WithoutSeenAppend(flags[1..], last);
    }
  }

  lemma WrittenIsSeen()
    ensures FoldIs(SEEN_AS_WRITTEN, SEEN)
  {
    assert FoldIs([0x6e], [0x4e]);
    assert FoldIs([0x65, 0x6e], [0x45, 0x4e]);
    assert FoldIs([0x65, 0x65, 0x6e], [0x45, 0x45, 0x4e]);
    assert FoldIs([0x53, 0x65, 0x65, 0x6e], [0x53, 0x45, 0x45, 0x4e]);
  }

  /** A store sets exactly the one flag: the message answers as asked, every
      other flag stays in its place, and storing again changes nothing. */
  lemma SetSeenIs(m: Message, seen: bool)
    ensures var n := SetSeen(m, seen);
            && Seen(n.flags) == seen
            && WithoutSeen(n.flags) == WithoutSeen(m.flags)
            && n.uid == m.uid && n.body == m.body
            && SetSeen(n, seen) == n
  {
    hide FoldIs;
    WithoutSeenIs(m.flags);
    WrittenIsSeen();
    if seen && !Seen(m.flags) {
      var flags := m.flags + [SEEN_AS_WRITTEN];
      assert flags[|m.flags|] == SEEN_AS_WRITTEN;
      WithoutSeenAppend(m.flags, SEEN_AS_WRITTEN);
    }
  }

  function Stored(messages: seq<Message>, ranges: seq<Span>, seen: bool): (r: seq<Message>)
    ensures |r| == |messages|
    ensures forall i :: 0 <= i < |r| ==> r[i] == if InRanges(messages[i].uid, ranges) then SetSeen(messages[i], seen) else messages[i]
  {
    seq(|messages|, i requires 0 <= i < |messages| => if InRanges(messages[i].uid, ranges) then SetSeen(messages[i], seen) else messages[i])
  }
}
