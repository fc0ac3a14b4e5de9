/** The label fixture: checking its seeds, and changing its views in place
    (internal/testkit/labels.go:135-226, 240-262, 506-610). */
module LabelFixture {
  import opened Octets
  import opened Wrappers
  import opened MailStore
  import opened MailServer
  import opened LabelViews

  class Fixture {
    const uidPlus: bool
    const messages: seq<LabelMessage>
    var views: seq<View>

    ghost function State(): Labels
      reads this
    {
      Labels(messages, views)
    }

    constructor (plus: bool, l: Labels)
      ensures uidPlus == plus && State() == l
    {
      uidPlus, messages, views := plus, l.messages, l.views;
    }

    method MemberByUid(v: View, uid: nat) returns (k: nat)
      ensures k == ByUid(v.members, uid)
    {
      k := 0;
      while k < |v.members| && v.members[k].uid != uid
        invariant k <= |v.members| && forall i :: 0 <= i < k ==> v.members[i].uid != uid
      {
        k := k + 1;
      }
    }

    method MemberByMessage(v: View, message: nat) returns (k: nat)
      ensures k == ByMessage(v.members, message)
    {
      k := 0;
      while k < |v.members| && v.members[k].message != message
        invariant k <= |v.members| && forall i :: 0 <= i < k ==> v.members[i].message != message
      {
        k := k + 1;
      }
    }

    method MarkedMember(v: View, uid: nat) returns (k: nat)
      ensures k == Marked(v.members, uid)
    {
      k := 0;
      while k < |v.members| && !(v.members[k].uid == uid && v.members[k].deleted)
        invariant k <= |v.members| && forall i :: 0 <= i < k ==> !(v.members[i].uid == uid && v.members[i].deleted)
      {
        k := k + 1;
      }
    }

    /** Adds the selected folder's message to one label view. */
    method LabelCopy(k: nat, uid: nat, target: bytes) returns (completion: Completion)
      requires k < |views|
      modifies this`views
      ensures (State(), completion) == CopyTo(old(State()), k, uid, target)
    {
      hide ByUid, ByMessage, FindView;
      if views[k].role != FolderRole {
        return No;
      }
      var d := FindView(views, target);
      if d == |views| {
        return No;
      } else if views[d].role != LabelRole {
        return No;
      } else if !SelectableAttributes(views[d].attributes) {
        return No;
      }
      var i := MemberByUid(views[k], uid);
      if i == |views[k].members| {
        return Ok;
      }
      var message := views[k].members[i].message;
      var there := MemberByMessage(views[d], message);
      if there < |views[d].members| {
        return Ok;
      }
      if views[d].uidNext == MAX_UINT32 {
        return No;
      }
      var destination := views[d];
      destination := destination.(members := destination.members + [Member(message, destination.uidNext, false)]);
      destination := destination.(uidNext := destination.uidNext + 1);
      views := views[d := destination];
      completion := Ok;
    }

    /** Marks one member of the selected label view. */
    method LabelStoreDeleted(k: nat, uid: nat) returns (completion: Completion)
      requires k < |views|
      modifies this`views
      ensures (State(), completion) == MarkIn(old(State()), k, uid)
    {
      hide ByUid;
      if views[k].role != LabelRole {
        return No;
      }
      var i := MemberByUid(views[k], uid);
      if i < |views[k].members| {
        var members := views[k].members;
        views := views[k := views[k].(members := members[i := members[i].(deleted := true)])];
      }
      completion := Ok;
    }

    /** Removes one marked member from the selected label view. */
    method LabelExpunge(k: nat, uid: nat) returns (completion: Completion)
      requires k < |views|
      modifies this`views
      ensures (State(), completion) == ExpungeIn(old(State()), k, uid)
    {
      hide Marked;
      if views[k].role != LabelRole {
        return No;
      }
      var i := MarkedMember(views[k], uid);
      if i == |views[k].members| {
        return Ok;
      }
      var members := views[k].members;
      views := views[k := views[k].(members := members[..i] + members[i + 1..])];
      completion := Ok;
    }

    /** One UID command of a connection. */
    method LabelUid(c: LabelCommand) returns (completion: Completion)
      modifies this`views
      ensures (State(), completion) == Perform(old(State()), uidPlus, c)
    {
      hide CopyTo, MarkIn, ExpungeIn, FindView;
      if c.UidExpunge? && !uidPlus {
        return Bad;
      }
      if c.at.selected == [] {
        return Bad;
      }
      var k := FindView(views, c.at.selected);
      if k == |views| || c.at.readOnly {
        return No;
      }
      match c {
        case UidCopy(_, uid, target) => completion := LabelCopy(k, uid, target);
        case MarkDeleted(_, uid) => completion := LabelStoreDeleted(k, uid);
        case UidExpunge(_, uid) => completion := LabelExpunge(k, uid);
      }
    }
  }

  // ---- Seeds ----

  datatype Seed = Seed(name: bytes, role: Role, attributes: seq<flag>, uidValidity: nat, members: seq<Member>)

  function Placed(sorted: seq<Member>, m: Member): seq<Member> {
    if sorted == [] || m.uid < sorted[0].uid then [m] + sorted else [sorted[0]] + Placed(sorted[1..], m)
  }

  function ByUidOrder(members: seq<Member>): seq<Member> {
    if members == [] then [] else Placed(ByUidOrder(members[1..]), members[0])
  }

  /** Distinct UIDs that leave a UIDNEXT, and known, distinct messages. */
  ghost predicate GoodMembers(members: seq<Member>, messages: nat) {
    && (forall i :: 0 <= i < |members| ==> members[i].message < messages && 1 <= members[i].uid < MAX_UINT32)
    && (forall i, j :: 0 <= i < j < |members| ==> members[i].uid != members[j].uid && members[i].message != members[j].message)
  }

  lemma {:induction false} PlacedHolds(sorted: seq<Member>, m: Member)
    ensures |Placed(sorted, m)| == |sorted| + 1 && forall x :: x in Placed(sorted, m) <==> x == m || x in sorted
    decreases |sorted|
  {
    if sorted != [] && m.uid >= sorted[0].uid {
      var tail := sorted[1..];
      PlacedHolds(tail, m);
      assert sorted == [sorted[0]] + tail;
    }
  }

  lemma AscendsCons(first: Member, rest: seq<Member>)
    ensures AscendingUids([first] + rest) <==> AscendingUids(rest) && forall x :: x in rest ==> first.uid < x.uid
  {
    hide AscendingUids;
    if AscendingUids([first] + rest) {
      AscendsTail(first, rest);
    }
    if AscendingUids(rest) && forall x :: x in rest ==> first.uid < x.uid {
      AscendsMore(first, rest);
    }
  }

  lemma AscendsTail(first: Member, rest: seq<Member>)
    requires AscendingUids([first] + rest)
    ensures AscendingUids(rest) && forall x :: x in rest ==> first.uid < x.uid
  {
    var all := [first] + rest;
    assert all[0] == first;
    forall i | 0 <= i < |rest| ensures first.uid < rest[i].uid {
      assert all[i + 1] == rest[i];
    }
    forall i, j | 0 <= i < j < |rest| ensures rest[i].uid < rest[j].uid {
      assert all[i + 1] == rest[i] && all[j + 1] == rest[j];
    }
  }

  lemma AscendsMore(first: Member, rest: seq<Member>)
    requires AscendingUids(rest) && forall x :: x in rest ==> first.uid < x.uid
    ensures AscendingUids([first] + rest)
  {
    var all := [first] + rest;
    forall i, j | 0 <= i < j < |all| ensures all[i].uid < all[j].uid {
      assert all[j] == rest[j - 1] && rest[j - 1] in rest;
      if i > 0 {
        assert all[i] == rest[i - 1];
      }
    }
  }

  lemma {:induction false} PlacedIs(sorted: seq<Member>, m: Member)
    requires AscendingUids(sorted) && forall x :: x in sorted ==> x.uid != m.uid
    ensures var r := Placed(sorted, m); AscendingUids(r) && |r| == |sorted| + 1 && forall x :: x in r <==> x == m || x in sorted
    decreases |sorted|
  {
    hide AscendingUids;
    PlacedHolds(sorted, m);
    if sorted == [] {
      AscendsCons(m, []);
      NoneAscends();
    } else {
      var tail := sorted[1..];
      assert sorted == [sorted[0]] + tail;
      AscendsCons(sorted[0], tail);
      if m.uid < sorted[0].uid {
        AscendsCons(m, sorted);
      } else {
        PlacedIs(tail, m);
        assert sorted[0] in sorted;
        AscendsCons(sorted[0], Placed(tail, m));
      }
    }
  }

  lemma NoneAscends()
    ensures AscendingUids([])
  {
  }

  lemma {:induction false} OrderIs(members: seq<Member>, messages: nat)
    requires GoodMembers(members, messages)
    ensures var r := ByUidOrder(members); AscendingUids(r) && |r| == |members| && forall x :: x in r <==> x in members
    decreases |members|
  {
    hide Placed;
    if members != [] {
      var tail := members[1..];
      assert forall i :: 0 <= i < |tail| ==> tail[i] == members[i + 1];
      OrderIs(tail, messages);
      var rest := ByUidOrder(tail);
      forall i | 0 <= i < |rest| ensures rest[i].uid != members[0].uid {
        assert rest[i] in tail;
        var k :| 0 <= k < |tail| && tail[k] == rest[i];
      }
      PlacedIs(rest, members[0]);
      assert members == [members[0]] + tail;
    }
  }

  lemma OrderDistinct(members: seq<Member>, r: seq<Member>)
    requires forall i, j :: 0 <= i < j < |members| ==> members[i].message != members[j].message
    requires (forall x :: x in r ==> x in members) && AscendingUids(r)
    ensures DistinctMessages(r)
  {
    forall i, j | 0 <= i < j < |r| ensures r[i].message != r[j].message {
      assert r[i] in members && r[j] in members;
      var a :| 0 <= a < |members| && members[a] == r[i];
      var b :| 0 <= b < |members| && members[b] == r[j];
      assert a != b;
    }
  }

  lemma HoldsSame(a: seq<Member>, b: seq<Member>)
    requires forall x :: x in a <==> x in b
    ensures forall m :: Holds(a, m) <==> Holds(b, m)
  {
    forall i | 0 <= i < |a| ensures exists k :: 0 <= k < |b| && b[k] == a[i] {
      assert a[i] in b;
    }
    forall i | 0 <= i < |b| ensures exists k :: 0 <= k < |a| && a[k] == b[i] {
      assert b[i] in a;
    }
  }

  lemma OrderGood(members: seq<Member>, messages: nat)
    requires GoodMembers(members, messages)
    ensures var r := ByUidOrder(members);
            && DistinctMessages(r) && AscendingUids(r) && |r| == |members|
            && forall i :: 0 <= i < |r| ==> r[i].message < messages && 1 <= r[i].uid < MAX_UINT32
    ensures forall m :: Holds(members, m) <==> Holds(ByUidOrder(members), m)
  {
    hide ByUidOrder, DistinctMessages, AscendingUids, Holds;
    OrderIs(members, messages);
    var r := ByUidOrder(members);
    OrderDistinct(members, r);
    HoldsSame(members, r);
    forall i | 0 <= i < |r| ensures r[i].message < messages && 1 <= r[i].uid < MAX_UINT32 {
      assert r[i] in members;
    }
  }

  /** The view a seed with good members makes. */
  function ViewOf(s: Seed): View {
    var members := ByUidOrder(s.members);
    View(s.name, s.role, s.attributes, s.uidValidity, if members == [] then 1 else members[|members| - 1].uid + 1, members)
  }

  lemma ViewValid(s: Seed, messages: nat)
    requires GoodMembers(s.members, messages)
    ensures ValidView(ViewOf(s), messages)
    ensures forall m :: Holds(ViewOf(s).members, m) <==> Holds(s.members, m)
  {
    hide ByUidOrder;
    OrderGood(s.members, messages);
  }

  function ViewsOf(seeds: seq<Seed>): (r: seq<View>)
    ensures |r| == |seeds| && forall i :: 0 <= i < |r| ==> r[i] == ViewOf(seeds[i])
  {
    seq(|seeds|, i requires 0 <= i < |seeds| => ViewOf(seeds[i]))
  }

  /** Seeds that name every view once, place only known messages under usable
      UIDs, and give every message exactly one folder. */
  ghost predicate Acceptable(messages: nat, seeds: seq<Seed>) {
    && (forall i, j :: 0 <= i < j < |seeds| ==> !NameMatches(seeds[i].name, seeds[j].name))
    && (forall i :: 0 <= i < |seeds| ==> GoodMembers(seeds[i].members, messages))
    && (forall m :: 0 <= m < messages ==> Folders(ViewsOf(seeds), m) == 1)
  }

  lemma AcceptableIsValid(messages: seq<LabelMessage>, seeds: seq<Seed>)
    requires Acceptable(|messages|, seeds)
    ensures ValidLabels(Labels(messages, ViewsOf(seeds)))
  {
    hide NameMatches, ViewOf, GoodMembers, ValidView, Folders;
    forall i | 0 <= i < |seeds| ensures ValidView(ViewOf(seeds[i]), |messages|) {
      ViewValid(seeds[i], |messages|);
    }
    forall i, j | 0 <= i < j < |seeds| ensures !NameMatches(ViewOf(seeds[i]).name, ViewOf(seeds[j]).name) {
      SeedName(seeds[i]);
      SeedName(seeds[j]);
    }
  }

  lemma SeedName(s: Seed)
    ensures ViewOf(s).name == s.name && ViewOf(s).role == s.role
  {
  }

  lemma {:induction false} FoldersMore(views: seq<View>, v: View, m: nat)
    ensures Folders(views + [v], m) == Folders(views, m) + if v.role == FolderRole && Holds(v.members, m) then 1 else 0
    decreases |views|
  {
    hide Holds;
    if views == [] {
      assert views + [v] == [v] && [v][1..] == [];
    } else {
      FoldersMore(views[1..], v, m);
      assert (views + [v])[1..] == views[1..] + [v];
    }
  }

  /** Whether the members of one seed are good. */
  method CheckMembers(members: seq<Member>, messages: nat) returns (good: bool)
    ensures good <==> GoodMembers(members, messages)
  {
    for i := 0 to |members|
      invariant GoodMembers(members[..i], messages)
    {
      var m := members[i];
      if m.message >= messages || m.uid == 0 || m.uid >= MAX_UINT32 {
        return false;
      }
      for j := 0 to i
        invariant forall k :: 0 <= k < j ==> members[k].uid != m.uid && members[k].message != m.message
      {
        if members[j].uid == m.uid || members[j].message == m.message {
          return false;
        }
      }
      assert members[..i + 1] == members[..i] + [m];
    }
    assert members[..|members|] == members;
    good := true;
  }

  /** Whether a folder seed places a message that is already in a folder. */
  method Owned(s: Seed, owned: set<nat>) returns (twice: bool)
    ensures twice <==> s.role == FolderRole && exists i :: 0 <= i < |s.members| && s.members[i].message in owned
  {
    if s.role != FolderRole {
      return false;
    }
    for i := 0 to |s.members|
      invariant forall k :: 0 <= k < i ==> s.members[k].message !in owned
    {
      if s.members[i].message in owned {
        return true;
      }
    }
    twice := false;
  }

  lemma {:induction false} FoldersGrow(views: seq<View>, more: seq<View>, m: nat)
    ensures Folders(views + more, m) >= Folders(views, m)
    decreases |more|
  {
    if more == [] {
      assert views + more == views;
    } else {
      FoldersMore(views, more[0], m);
      FoldersGrow(views + [more[0]], more[1..], m);
      assert views + more == views + [more[0]] + more[1..];
    }
  }

  /** Builds the label model, or refuses the seeds. */
  method NewLabelStore(messages: seq<LabelMessage>, seeds: seq<Seed>) returns (l: Option<Labels>)
    ensures l.Some? <==> Acceptable(|messages|, seeds)
    ensures l.Some? ==> l.value == Labels(messages, ViewsOf(seeds)) && ValidLabels(l.value)
  {
    hide NameMatches, GoodMembers, Folders, ViewOf, ByUidOrder, ValidLabels;
    var views: seq<View> := [];
    var owned: set<nat> := {};
    FoldersNone();
    for index := 0 to |seeds|
      invariant views == ViewsOf(seeds[..index])
      invariant forall i, j :: 0 <= i < j < index ==> !NameMatches(seeds[i].name, seeds[j].name)
      invariant forall i :: 0 <= i < index ==> GoodMembers(seeds[i].members, |messages|)
      invariant forall m :: Folders(views, m) == if m in owned then 1 else 0
    {
      var s := seeds[index];
      for i := 0 to index
        invariant forall k :: 0 <= k < i ==> !NameMatches(seeds[k].name, s.name)
      {
        if NameMatches(seeds[i].name, s.name) {
          return None;
        }
      }
      var good := CheckMembers(s.members, |messages|);
      if !good {
        return None;
      }
      var twice := Owned(s, owned);
      if twice {
        OwnedTwice(|messages|, seeds, index, owned);
        return None;
      }
      SeedFolders(views, s, |messages|, owned);
      assert seeds[..index + 1] == seeds[..index] + [s];
      assert ViewsOf(seeds[..index + 1]) == views + [ViewOf(s)];
      views := views + [ViewOf(s)];
      if s.role == FolderRole {
        owned := owned + set i | 0 <= i < |s.members| :: s.members[i].message;
      }
    }
    assert seeds[..|seeds|] == seeds;
    for m := 0 to |messages|
      invariant forall k :: 0 <= k < m ==> k in owned
    {
      if m !in owned {
        return None;
      }
    }
    AcceptableIsValid(messages, seeds);
    l := Some(Labels(messages, views));
  }

  lemma FoldersNone()
    ensures forall m :: Folders([], m) == 0
  {
  }

  lemma SeedFolders(views: seq<View>, s: Seed, messages: nat, owned: set<nat>)
    requires GoodMembers(s.members, messages) && forall m :: Folders(views, m) == if m in owned then 1 else 0
    requires s.role == FolderRole ==> forall i :: 0 <= i < |s.members| ==> s.members[i].message !in owned
    ensures var more := if s.role == FolderRole then owned + set i | 0 <= i < |s.members| :: s.members[i].message else owned;
            forall m :: Folders(views + [ViewOf(s)], m) == if m in more then 1 else 0
  {
    hide GoodMembers, ViewOf, Folders;
    ViewValid(s, messages);
    SeedName(s);
    forall m
      ensures Folders(views + [ViewOf(s)], m) == Folders(views, m) + if s.role == FolderRole && Holds(s.members, m) then 1 else 0
    {
      FoldersMore(views, ViewOf(s), m);
    }
  }

  lemma OwnedTwice(messages: nat, seeds: seq<Seed>, index: nat, owned: set<nat>)
    requires index < |seeds| && GoodMembers(seeds[index].members, messages) && seeds[index].role == FolderRole
    requires forall m :: Folders(ViewsOf(seeds[..index]), m) == if m in owned then 1 else 0
    requires exists i :: 0 <= i < |seeds[index].members| && seeds[index].members[i].message in owned
    ensures !Acceptable(messages, seeds)
  {
    hide ViewOf, Folders;
    var s := seeds[index];
    var i :| 0 <= i < |s.members| && s.members[i].message in owned;
    var m := s.members[i].message;
    ViewValid(s, messages);
    SeedName(s);
    var views := ViewsOf(seeds[..index]);
    assert Holds(s.members, m);
    FoldersMore(views, ViewOf(s), m);
    FoldersGrow(views + [ViewOf(s)], ViewsOf(seeds[index + 1..]), m);
    assert views + [ViewOf(s)] + ViewsOf(seeds[index + 1..]) == ViewsOf(seeds);
    assert m < messages;
  }
}
