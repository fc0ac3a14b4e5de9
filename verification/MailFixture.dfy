/** The stateful fixture changing its mailboxes in place
    (internal/testkit/stateful.go:844-960). */
module MailFixture {
  import opened Octets
  import opened Sequences
  import opened MailStore
  import opened MailServer

  lemma {:induction false} KeptAppend(messages: seq<Message>, m: Message, ranges: seq<Span>)
    ensures Kept(messages + [m], ranges) == Kept(messages, ranges) + if InRanges(m.uid, ranges) then [] else [m]
    decreases |messages|
  {
    hide InRanges;
    var all, last := messages + [m], if InRanges(m.uid, ranges) then [] else [m];
    if messages == [] {
      assert all == [m] && all[1..] == [] && Kept(all[1..], ranges) == [];
    } else {
      var mine := if InRanges(messages[0].uid, ranges) then [] else [messages[0]];
      assert all[0] == messages[0] && all[1..] == messages[1..] + [m];
      KeptAppend(messages[1..], m, ranges);
      Assoc(mine, Kept(messages[1..], ranges), last);
    }
  }

  lemma {:induction false} PickedAppend(messages: seq<Message>, m: Message, ranges: seq<Span>)
    ensures Picked(messages + [m], ranges) == Picked(messages, ranges) + if InRanges(m.uid, ranges) then [m] else []
    decreases |messages|
  {
    hide InRanges;
    var all, last := messages + [m], if InRanges(m.uid, ranges) then [m] else [];
    if messages == [] {
      assert all == [m] && all[1..] == [] && Picked(all[1..], ranges) == [];
    } else {
      var mine := if InRanges(messages[0].uid, ranges) then [messages[0]] else [];
      assert all[0] == messages[0] && all[1..] == messages[1..] + [m];
      PickedAppend(messages[1..], m, ranges);
      Assoc(mine, Picked(messages[1..], ranges), last);
    }
  }

  lemma {:induction false} ExpungesAppend(messages: seq<Message>, m: Message, ranges: seq<Span>, before: nat)
    ensures Expunges(messages + [m], ranges, before)
            == (if InRanges(m.uid, ranges) then [before + |messages| + 1] else []) + Expunges(messages, ranges, before)
    decreases |messages|
  {
    hide InRanges;
    var all := messages + [m];
    if messages == [] {
      assert all == [m] && all[1..] == [] && Expunges(all[1..], ranges, before + 1) == [];
    } else {
      assert all[0] == messages[0] && all[1..] == messages[1..] + [m];
      ExpungesAppend(messages[1..], m, ranges, before + 1);
    }
  }

  lemma NothingMoved(m: Mailbox, ranges: seq<Span>)
    ensures Kept([], ranges) == [] && Picked([], ranges) == [] && Expunges([], ranges, 0) == [] && CopyUid([], m.uidNext) == []
    ensures Received(m, []) == m
  {
    assert m.messages + Renumbered([], m.uidNext) == m.messages;
  }

  /** What one more message that the ranges name adds to the results of a move. */
  lemma NamedMore(before: seq<Message>, m: Message, ranges: seq<Span>)
    requires InRanges(m.uid, ranges)
    ensures Kept(before + [m], ranges) == Kept(before, ranges)
    ensures Picked(before + [m], ranges) == Picked(before, ranges) + [m]
    ensures Expunges(before + [m], ranges, 0) == [|before| + 1] + Expunges(before, ranges, 0)
  {
    hide InRanges, Kept, Picked, Expunges;
    KeptAppend(before, m, ranges);
    PickedAppend(before, m, ranges);
    ExpungesAppend(before, m, ranges, 0);
    AddNothing(Kept(before, ranges));
  }

  /** What any other message adds. */
  lemma KeptMore(before: seq<Message>, m: Message, ranges: seq<Span>)
    requires !InRanges(m.uid, ranges)
    ensures Kept(before + [m], ranges) == Kept(before, ranges) + [m]
    ensures Picked(before + [m], ranges) == Picked(before, ranges)
    ensures Expunges(before + [m], ranges, 0) == Expunges(before, ranges, 0)
  {
    hide InRanges, Kept, Picked, Expunges;
    KeptAppend(before, m, ranges);
    PickedAppend(before, m, ranges);
    ExpungesAppend(before, m, ranges, 0);
    AddNothing(Picked(before, ranges));
    AddNothing(Expunges(before, ranges, 0));
  }

  lemma CopyUidAppend(picked: seq<Message>, m: Message, next: nat)
    ensures CopyUid(picked + [m], next) == CopyUid(picked, next) + [(m.uid, next + |picked|)]
  {
  }

  class Fixture {
    var enabled: bool
    var mailboxes: Store

    constructor (move: bool, seeds: Store)
      ensures enabled == move && mailboxes == seeds
    {
      enabled, mailboxes := move, seeds;
    }

    /** Adds a message to the end of mailbox d under its next UID. */
    method Deliver(d: nat, message: Message, ghost s: Store, ghost picked: seq<Message>) returns (uid: nat)
      requires d < |s| && mailboxes == s[d := Received(s[d], picked)]
      modifies this`mailboxes
      ensures mailboxes == s[d := Received(s[d], picked + [message])] && uid == s[d].uidNext + |picked|
    {
      ReceivedAppend(s[d], picked, message);
      var m := mailboxes[d];
      uid := m.uidNext;
      mailboxes := mailboxes[d := m.(messages := m.messages + [message.(uid := uid)], uidNext := uid + 1)];
    }

    /** Moves the messages of the source that the ranges name to the end of the
        destination, one after another. */
    method MoveMessages(k: nat, d: nat, ranges: seq<Span>) returns (expunged: seq<nat>, copied: seq<(nat, nat)>)
      requires k < |mailboxes| && d < |mailboxes| && k != d
      modifies this`mailboxes
      ensures var s := old(mailboxes);
              var picked := Picked(s[k].messages, ranges);
              && mailboxes == s[k := s[k].(messages := Kept(s[k].messages, ranges))][d := Received(s[d], picked)]
              && expunged == Expunges(s[k].messages, ranges, 0)
              && copied == CopyUid(picked, s[d].uidNext)
    {
      hide InRanges, Kept, Picked, Expunges, CopyUid, Received;
      ghost var s, next := mailboxes, mailboxes[d].uidNext;
      var source := mailboxes[k].messages;
      var kept := [];
      ghost var picked: seq<Message> := [];
      expunged, copied := [], [];
      NothingMoved(mailboxes[d], ranges);
      assert source[..0] == [];
      for index := 0 to |source|
        invariant kept == Kept(source[..index], ranges) && picked == Picked(source[..index], ranges)
        invariant expunged == Expunges(source[..index], ranges, 0) && copied == CopyUid(picked, next)
        invariant mailboxes == s[d := Received(s[d], picked)]
      {
        var message := source[index];
        assert source[..index + 1] == source[..index] + [message];
        if InRanges(message.uid, ranges) {
          NamedMore(source[..index], message, ranges);
          CopyUidAppend(picked, message, next);
          expunged := [index + 1] + expunged;
          var uid := Deliver(d, message, s, picked);
          copied := copied + [(message.uid, uid)];
          picked := picked + [message];
        } else {
          KeptMore(source[..index], message, ranges);
          kept := kept + [message];
        }
      }
      assert source[..|source|] == source;
      mailboxes := mailboxes[k := mailboxes[k].(messages := kept)];
    }

    /** UID MOVE. */
    method StatefulMove(at: Selection, ranges: seq<Span>, target: bytes) returns (completion: Completion, expunged: seq<nat>, copied: seq<(nat, nat)>)
      modifies this`mailboxes
      ensures (mailboxes, completion) == MoveCommand(old(mailboxes), enabled, at, ranges, target)
      ensures completion == Ok ==> expunged == Expunges(old(mailboxes)[FindMailbox(old(mailboxes), at.selected)].messages, ranges, 0)
      ensures completion == Ok ==>
                var s := old(mailboxes);
                copied == CopyUid(Picked(s[FindMailbox(s, at.selected)].messages, ranges), s[FindMailbox(s, target)].uidNext)
    {
      hide InRanges, Received, Kept, Picked, Expunges, Selectable;
      expunged, copied := [], [];
      if !enabled || at.selected == [] {
        return Bad, [], [];
      }
      var k := FindMailbox(mailboxes, at.selected);
      if k == |mailboxes| || at.readOnly {
        return No, [], [];
      }
      var d := FindMailbox(mailboxes, target);
      if d == |mailboxes| {
        return No, [], [];
      } else if !Selectable(mailboxes[d]) {
        return No, [], [];
      } else if d == k {
        return No, [], [];
      }
      var moving := CountNamed(mailboxes[k].messages, ranges);
      if mailboxes[d].uidNext + moving > MAX_UINT32 {
        return No, [], [];
      }
      expunged, copied := MoveMessages(k, d, ranges);
      completion := Ok;
    }

    method CountNamed(messages: seq<Message>, ranges: seq<Span>) returns (moving: nat)
      ensures moving == |Picked(messages, ranges)|
    {
      hide InRanges;
      moving := 0;
      assert messages[..0] == [];
      for index := 0 to |messages|
        invariant moving == |Picked(messages[..index], ranges)|
      {
        assert messages[..index + 1] == messages[..index] + [messages[index]];
        PickedAppend(messages[..index], messages[index], ranges);
        if InRanges(messages[index].uid, ranges) {
          moving := moving + 1;
        }
      }
      assert messages[..|messages|] == messages;
    }

    /** UID STORE of the one flag \Seen. */
    method StatefulStore(at: Selection, ranges: seq<Span>, seen: bool) returns (completion: Completion)
      modifies this`mailboxes
      ensures (mailboxes, completion) == StoreCommand(old(mailboxes), at, ranges, seen)
    {
      hide InRanges, SetSeen;
      if at.selected == [] {
        return Bad;
      }
      var k := FindMailbox(mailboxes, at.selected);
      if k == |mailboxes| || at.readOnly {
        return No;
      }
      var messages := mailboxes[k].messages;
      for index := 0 to |messages|
        invariant |messages| == |mailboxes[k].messages| && mailboxes == old(mailboxes)
        invariant forall i :: 0 <= i < index ==> messages[i] == Stored(old(mailboxes)[k].messages, ranges, seen)[i]
        invariant forall i :: index <= i < |messages| ==> messages[i] == old(mailboxes)[k].messages[i]
      {
        if InRanges(messages[index].uid, ranges) {
          messages := messages[index := SetSeen(messages[index], seen)];
        }
      }
      assert messages == Stored(old(mailboxes)[k].messages, ranges, seen);
      mailboxes := mailboxes[k := mailboxes[k].(messages := messages)];
      completion := Ok;
    }
  }

  lemma ReceivedAppend(m: Mailbox, picked: seq<Message>, message: Message)
    ensures Received(m, picked + [message])
            == m.(messages := Received(m, picked).messages + [message.(uid := m.uidNext + |picked|)], uidNext := m.uidNext + |picked| + 1)
  {
    assert Renumbered(picked + [message], m.uidNext) == Renumbered(picked, m.uidNext) + [message.(uid := m.uidNext + |picked|)];
    assert m.messages + (Renumbered(picked, m.uidNext) + [message.(uid := m.uidNext + |picked|)])
        == m.messages + Renumbered(picked, m.uidNext) + [message.(uid := m.uidNext + |picked|)];
  }
}
