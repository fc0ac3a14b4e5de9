/** The two mutations the stateful fixture applies, UID MOVE and UID STORE of
    \Seen, as commands on its mailboxes (internal/testkit/stateful.go:600-650,
    844-960), and what every run of them keeps. */
module MailServer {
  import opened Octets
  import opened MailStore

  datatype Completion = Ok | No | Bad

  /** A connection's selection, empty when nothing is selected. */
  datatype Selection = Selection(selected: bytes, readOnly: bool)

  function MoveCommand(s: Store, enabled: bool, at: Selection, ranges: seq<Span>, target: bytes): (Store, Completion) {
    var k, d := FindMailbox(s, at.selected), FindMailbox(s, target);
    if !enabled || at.selected == [] then (s, Bad)
    else if k == |s| || at.readOnly || d == |s| || !Selectable(s[d]) || d == k then (s, No)
    else
      var picked := Picked(s[k].messages, ranges);
      if s[d].uidNext + |picked| > MAX_UINT32 then (s, No)
      else (s[k := s[k].(messages := Kept(s[k].messages, ranges))][d := Received(s[d], picked)], Ok)
  }

  function StoreCommand(s: Store, at: Selection, ranges: seq<Span>, seen: bool): (Store, Completion) {
    var k := FindMailbox(s, at.selected);
    if at.selected == [] then (s, Bad)
    else if k == |s| || at.readOnly then (s, No)
    else (s[k := s[k].(messages := Stored(s[k].messages, ranges, seen))], Ok)
  }

  // ---- What no command does ----

  /** The later mailbox still never reuses a UID: UIDNEXT did not decrease, and
      every UID below the earlier UIDNEXT was already there. */
  ghost predicate Continues(m: Mailbox, later: Mailbox) {
    && m.name == later.name && m.uidNext <= later.uidNext
    && forall u :: u in Uids(later.messages) && u < m.uidNext ==> u in Uids(m.messages)
  }

  ghost predicate ContinuesOne(s: Store, later: Mailbox) {
    exists i :: 0 <= i < |s| && Continues(s[i], later)
  }

  /** Every mailbox of the later store continues one of the earlier: the store
      may lose mailboxes and messages, change flags, attributes and UIDVALIDITY,
      and gain messages under new UIDs. */
  ghost predicate Evolves(s: Store, later: Store) {
    forall j :: 0 <= j < |later| ==> ContinuesOne(s, later[j])
  }

  lemma EvolvesSame(s: Store)
    ensures Evolves(s, s)
  {
    forall j | 0 <= j < |s| ensures ContinuesOne(s, s[j]) {
      assert Continues(s[j], s[j]);
    }
  }

  lemma EvolvesThen(a: Store, b: Store, c: Store)
    requires Evolves(a, b) && Evolves(b, c)
    ensures Evolves(a, c)
  {
    hide Continues;
    forall j | 0 <= j < |c| ensures ContinuesOne(a, c[j]) {
      assert ContinuesOne(b, c[j]);
      var k :| 0 <= k < |b| && Continues(b[k], c[j]);
      assert ContinuesOne(a, b[k]);
      var i :| 0 <= i < |a| && Continues(a[i], b[k]);
      ContinuesThen(a[i], b[k], c[j]);
    }
  }

  lemma ContinuesThen(a: Mailbox, b: Mailbox, c: Mailbox)
    requires Continues(a, b) && Continues(b, c)
    ensures Continues(a, c)
  {
  }

  /** The UID was once given out by the mailbox called name and is not there. */
  ghost predicate Gone(s: Store, name: bytes, uid: nat) {
    forall i :: 0 <= i < |s| && NameMatches(s[i].name, name) ==> uid < s[i].uidNext && uid !in Uids(s[i].messages)
  }

  /** A UID that is gone stays gone. */
  lemma GoneForever(s: Store, later: Store, name: bytes, uid: nat)
    requires Evolves(s, later) && Gone(s, name, uid)
    ensures Gone(later, name, uid)
  {
    hide NameMatches, Uids;
    forall j | 0 <= j < |later| && NameMatches(later[j].name, name)
      ensures uid < later[j].uidNext && uid !in Uids(later[j].messages)
    {
      assert ContinuesOne(s, later[j]);
      var i :| 0 <= i < |s| && Continues(s[i], later[j]);
      assert NameMatches(s[i].name, name);
    }
  }

  // ---- The whole store ----

  ghost function AllContents(s: Store): multiset<Content> {
    if s == [] then multiset{} else Contents(s[0].messages) + AllContents(s[1..])
  }

  lemma {:induction false} UpdateContents(s: Store, k: nat, m: Mailbox)
    requires k < |s|
    ensures AllContents(s[k := m]) + Contents(s[k].messages) == AllContents(s) + Contents(m.messages)
    decreases |s|
  {
    hide Contents;
    var t := s[k := m];
    if k == 0 {
      assert t[1..] == s[1..];
    } else {
      UpdateContents(s[1..], k - 1, m);
      assert t[1..] == s[1..][k - 1 := m] && s[1..][k - 1] == s[k];
      assert t[0] == s[0];
      Shift(Contents(s[0].messages), AllContents(t[1..]), Contents(s[k].messages), AllContents(s[1..]), Contents(m.messages));
    }
  }

  lemma Shift(h: multiset<Content>, t: multiset<Content>, x: multiset<Content>, s: multiset<Content>, y: multiset<Content>)
    requires t + x == s + y
    ensures h + t + x == h + s + y
  {
    forall c ensures (h + t + x)[c] == (h + s + y)[c] {
      assert (t + x)[c] == (s + y)[c];
    }
  }

  lemma NamesKept(s: Store, k: nat, m: Mailbox)
    requires ValidStore(s) && k < |s| && ValidMailbox(m) && m.name == s[k].name
    ensures ValidStore(s[k := m])
  {
    hide NameMatches, ValidMailbox;
    var t := s[k := m];
    forall i, j | 0 <= i < j < |t| ensures !NameMatches(t[i].name, t[j].name) {
      assert t[i].name == s[i].name && t[j].name == s[j].name;
    }
  }

  lemma UpdateEvolves(s: Store, k: nat, m: Mailbox)
    requires k < |s| && Continues(s[k], m)
    ensures Evolves(s, s[k := m])
  {
    hide Continues;
    var t := s[k := m];
    forall j | 0 <= j < |t| ensures ContinuesOne(s, t[j]) {
      if j != k {
        SelfContinues(s[j]);
        assert t[j] == s[j];
      }
      assert Continues(s[j], t[j]);
    }
  }

  lemma SelfContinues(m: Mailbox)
    ensures Continues(m, m)
  {
  }

  /** UID MOVE keeps a valid store valid, never reuses a UID, conserves every
      message over all mailboxes, changes nothing unless it completes, and then
      leaves none of the named UIDs in the source. */
  lemma MoveKeeps(s: Store, enabled: bool, at: Selection, ranges: seq<Span>, target: bytes)
    requires ValidStore(s)
    ensures var (t, completion) := MoveCommand(s, enabled, at, ranges, target);
            && ValidStore(t) && Evolves(s, t) && AllContents(t) == AllContents(s)
            && (completion != Ok ==> t == s)
            && (completion == Ok ==>
                  var k := FindMailbox(s, at.selected);
                  k < |s| && |t| == |s| && t[k].name == s[k].name && t[k].uidNext == s[k].uidNext
                  && Uids(t[k].messages) == (set u | u in Uids(s[k].messages) && !InRanges(u, ranges)))
  {
    hide Contents, Uids, Picked, InRanges, Selectable, NameMatches, ValidMailbox, Received, Kept, AllContents, Evolves;
    var (t, completion) := MoveCommand(s, enabled, at, ranges, target);
    EvolvesSame(s);
    if completion == Ok {
      var k, d := FindMailbox(s, at.selected), FindMailbox(s, target);
      MoveBetween(s, k, d, ranges);
    }
  }

  lemma MoveBetween(s: Store, k: nat, d: nat, ranges: seq<Span>)
    requires ValidStore(s) && k < |s| && d < |s| && k != d
    requires s[d].uidNext + |Picked(s[k].messages, ranges)| <= MAX_UINT32
    ensures var t := s[k := s[k].(messages := Kept(s[k].messages, ranges))][d := Received(s[d], Picked(s[k].messages, ranges))];
            && ValidStore(t) && Evolves(s, t) && AllContents(t) == AllContents(s)
            && Uids(t[k].messages) == (set u | u in Uids(s[k].messages) && !InRanges(u, ranges))
  {
    hide Contents, Uids, Kept, Picked, InRanges, NameMatches, ValidMailbox, Continues, Received, AllContents, Evolves;
    var picked := Picked(s[k].messages, ranges);
    var kept, received := s[k].(messages := Kept(s[k].messages, ranges)), Received(s[d], picked);
    MoveConserves(s[k], s[d], ranges);
    MoveContinues(s[k], s[d], ranges);
    var middle := s[k := kept];
    var t := middle[d := received];
    NamesKept(s, k, kept);
    NamesKept(middle, d, received);
    UpdateEvolves(s, k, kept);
    UpdateEvolves(middle, d, received);
    EvolvesThen(s, middle, t);
    UpdateContents(s, k, kept);
    UpdateContents(middle, d, received);
    Balance(AllContents(t), AllContents(middle), AllContents(s), Contents(s[d].messages), Contents(received.messages),
            Contents(s[k].messages), Contents(kept.messages));
  }

  lemma Balance(t: multiset<Content>, m: multiset<Content>, s: multiset<Content>, d: multiset<Content>, d': multiset<Content>,
                k: multiset<Content>, k': multiset<Content>)
    requires t + d == m + d' && m + k == s + k' && k' + d' == k + d
    ensures t == s
  {
    forall x ensures t[x] == s[x] {
      assert (t + d)[x] == (m + d')[x] && (m + k)[x] == (s + k')[x] && (k' + d')[x] == (k + d)[x];
    }
  }

  lemma MoveContinues(source: Mailbox, destination: Mailbox, ranges: seq<Span>)
    requires ValidMailbox(source) && ValidMailbox(destination)
    requires destination.uidNext + |Picked(source.messages, ranges)| <= MAX_UINT32
    ensures Continues(source, source.(messages := Kept(source.messages, ranges)))
    ensures Continues(destination, Received(destination, Picked(source.messages, ranges)))
    ensures Received(destination, Picked(source.messages, ranges)).name == destination.name
  {
    hide Uids, Kept, Picked, InRanges, Contents, ValidMailbox;
    MoveConserves(source, destination, ranges);
    var received := Received(destination, Picked(source.messages, ranges));
    forall u | u in Uids(received.messages) && u < destination.uidNext ensures u in Uids(destination.messages) {
      assert u in Uids(received.messages) - Uids(destination.messages) || u in Uids(destination.messages);
    }
  }

  /** UID STORE keeps a valid store valid and touches only the flags of the
      named messages of the selected mailbox. */
  lemma StoreKeeps(s: Store, at: Selection, ranges: seq<Span>, seen: bool)
    requires ValidStore(s)
    ensures var (t, completion) := StoreCommand(s, at, ranges, seen);
            && ValidStore(t) && Evolves(s, t)
            && (completion != Ok ==> t == s)
            && (completion == Ok ==>
                  var k := FindMailbox(s, at.selected);
                  && k < |s| && |t| == |s| && (forall j :: 0 <= j < |s| && j != k ==> t[j] == s[j])
                  && t[k] == s[k].(messages := t[k].messages) && |t[k].messages| == |s[k].messages|
                  && forall i :: 0 <= i < |s[k].messages| ==> Touched(s[k].messages[i], t[k].messages[i], ranges, seen))
  {
    hide InRanges, NameMatches, ValidMailbox, Continues, Uids, SetSeen, Seen, WithoutSeen, Evolves;
    EvolvesSame(s);
    if StoreCommand(s, at, ranges, seen).1 == Ok {
      var k := FindMailbox(s, at.selected);
      var m := s[k].(messages := Stored(s[k].messages, ranges, seen));
      StoredKeeps(s[k], ranges, seen);
      NamesKept(s, k, m);
      UpdateEvolves(s, k, m);
      forall i | 0 <= i < |m.messages| ensures Touched(s[k].messages[i], m.messages[i], ranges, seen) {
        SetSeenIs(s[k].messages[i], seen);
      }
    }
  }

  /** A named message answers as asked and keeps every other flag in place;
      any other message is untouched. */
  ghost predicate Touched(m: Message, n: Message, ranges: seq<Span>, seen: bool) {
    if InRanges(m.uid, ranges) then
      n == m.(flags := n.flags) && Seen(n.flags) == seen && WithoutSeen(n.flags) == WithoutSeen(m.flags)
    else n == m
  }

  lemma StoredKeeps(m: Mailbox, ranges: seq<Span>, seen: bool)
    requires ValidMailbox(m)
    ensures ValidMailbox(m.(messages := Stored(m.messages, ranges, seen)))
    ensures Continues(m, m.(messages := Stored(m.messages, ranges, seen)))
  {
    hide InRanges, Seen, WithoutSeen;
    var r := Stored(m.messages, ranges, seen);
    assert forall i :: 0 <= i < |r| ==> r[i].uid == m.messages[i].uid;
  }

  // ---- Runs ----

  datatype Command =
    | UidMove(at: Selection, ranges: seq<Span>, target: bytes)
    | UidStore(at: Selection, ranges: seq<Span>, seen: bool)

  function Execute(s: Store, enabled: bool, c: Command): Store {
    match c
    case UidMove(at, ranges, target) => MoveCommand(s, enabled, at, ranges, target).0
    case UidStore(at, ranges, seen) => StoreCommand(s, at, ranges, seen).0
  }

  function ExecuteAll(s: Store, enabled: bool, commands: seq<Command>): Store
    decreases |commands|
  {
    if commands == [] then s else ExecuteAll(Execute(s, enabled, commands[0]), enabled, commands[1..])
  }

  /** Over every run of both commands, from any connections in any order, the
      store stays valid and no mailbox ever reuses a UID; over moves alone every
      message survives with its flags. */
  lemma {:induction false} RunKeeps(s: Store, enabled: bool, commands: seq<Command>)
    requires ValidStore(s)
    ensures ValidStore(ExecuteAll(s, enabled, commands)) && Evolves(s, ExecuteAll(s, enabled, commands))
    ensures (forall i :: 0 <= i < |commands| ==> commands[i].UidMove?) ==> AllContents(ExecuteAll(s, enabled, commands)) == AllContents(s)
    decreases |commands|
  {
    hide MoveCommand, StoreCommand, ValidStore, Evolves, AllContents;
    if commands == [] {
      EvolvesSame(s);
    } else {
      var c := commands[0];
      if c.UidMove? {
        MoveKeeps(s, enabled, c.at, c.ranges, c.target);
      } else {
        StoreKeeps(s, c.at, c.ranges, c.seen);
      }
      var next := Execute(s, enabled, c);
      RunKeeps(next, enabled, commands[1..]);
      EvolvesThen(s, next, ExecuteAll(s, enabled, commands));
      assert forall i :: 0 <= i < |commands| - 1 ==> commands[1..][i] == commands[i + 1];
    }
  }
}
