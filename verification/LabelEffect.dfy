/** Exactly what each label command does and when it completes, said of the views
    before and after (internal/testkit/labels.go:432-610). */
module LabelEffect {
  import opened Octets
  import opened MailStore
  import opened MailServer
  import opened LabelViews

  /** The k-th view is the one of this name. */
  ghost predicate Called(l: Labels, name: bytes, k: nat) {
    k < |l.views| && NameMatches(l.views[k].name, name)
  }

  /** Nothing changed but the view at k. */
  ghost predicate OnlyView(l: Labels, t: Labels, k: nat) {
    && t.messages == l.messages && |t.views| == |l.views|
    && forall j :: 0 <= j < |l.views| && j != k ==> t.views[j] == l.views[j]
  }

  /** The connection has a view of this role selected for writing. */
  ghost predicate Writes(l: Labels, at: Selection, role: Role, k: nat) {
    at.selected != [] && !at.readOnly && Called(l, at.selected, k) && l.views[k].role == role
  }

  /** A label view that a copy may add to. */
  ghost predicate Labelled(l: Labels, name: bytes, d: nat) {
    && Called(l, name, d) && l.views[d].role == LabelRole
    && forall a :: a in l.views[d].attributes ==> !FoldIs(a, NOSELECT) && !FoldIs(a, NONEXISTENT)
  }

  /** The view at k has this message under this UID. */
  ghost predicate Shows(v: View, uid: nat, message: nat) {
    exists i :: 0 <= i < |v.members| && v.members[i].uid == uid && v.members[i].message == message
  }

  // ---- Finding ----

  lemma {:induction false} FindFirst(views: seq<View>, name: bytes)
    ensures forall i :: 0 <= i < FindView(views, name) ==> !NameMatches(views[i].name, name)
    decreases |views|
  {
    hide NameMatches;
    if views != [] && !NameMatches(views[0].name, name) {
      FindFirst(views[1..], name);
      assert forall i :: 0 < i < FindView(views, name) ==> views[i] == views[1..][i - 1];
    }
  }

  lemma MatchesBoth(a: bytes, b: bytes, name: bytes)
    requires NameMatches(a, name) && NameMatches(b, name)
    ensures NameMatches(a, b)
  {
    hide FoldIs;
  }

  lemma CalledIs(l: Labels, name: bytes)
    requires ValidLabels(l)
    ensures forall k: nat :: Called(l, name, k) <==> k < |l.views| && k == FindView(l.views, name)
  {
    hide NameMatches, ValidView, Folders;
    FindFirst(l.views, name);
    var f := FindView(l.views, name);
    forall k: nat | Called(l, name, k) ensures k == f {
      if f < k {
        MatchesBoth(l.views[f].name, l.views[k].name, name);
      }
    }
  }

  lemma ShownBy(v: View, messages: nat, uid: nat)
    requires ValidView(v, messages)
    ensures var i := ByUid(v.members, uid);
            if i < |v.members| then forall m :: Shows(v, uid, m) <==> m == v.members[i].message
            else forall m :: !Shows(v, uid, m)
  {
    hide ByUid, DistinctMessages;
  }

  lemma HeldBy(members: seq<Member>, message: nat)
    ensures Holds(members, message) <==> ByMessage(members, message) < |members|
  {
    hide ByMessage;
  }

  lemma MayBeSelected(attributes: seq<flag>)
    ensures SelectableAttributes(attributes) <==> forall a :: a in attributes ==> !FoldIs(a, NOSELECT) && !FoldIs(a, NONEXISTENT)
  {
    hide FoldIs;
    if forall a :: a in attributes ==> !FoldIs(a, NOSELECT) && !FoldIs(a, NONEXISTENT) {
      assert forall i :: 0 <= i < |attributes| ==> attributes[i] in attributes;
    }
  }

  lemma ViewIsValid(l: Labels, k: nat)
    requires ValidLabels(l) && k < |l.views|
    ensures ValidView(l.views[k], |l.messages|)
  {
    hide ValidView;
  }

  // ---- UID COPY ----

  /** The copy has its place: the UID names no message, the view has it already,
      or there is a UID for it. */
  ghost predicate Placeable(v: View, d: View, uid: nat) {
    (exists m :: Shows(v, uid, m) && !Holds(d.members, m)) ==> d.uidNext < MAX_UINT32
  }

  /** The message that the UID names is put into the label view, once, under
      its UIDNEXT; a UID that names none, or one already there, adds nothing. */
  ghost predicate Copied(l: Labels, t: Labels, k: nat, d: nat, uid: nat)
    requires k < |l.views| && d < |l.views|
  {
    && OnlyView(l, t, d) && |t.views| == |l.views|
    && (forall m :: Shows(l.views[k], uid, m) && !Holds(l.views[d].members, m) ==>
          t.views[d] == l.views[d].(members := l.views[d].members + [Member(m, l.views[d].uidNext, false)],
                                    uidNext := l.views[d].uidNext + 1))
    && ((forall m :: Shows(l.views[k], uid, m) ==> Holds(l.views[d].members, m)) ==> t == l)
  }

  /** A copy completes exactly from a folder selected for writing into another
      role's selectable view with room, and then does just that. */
  lemma CopyIs(l: Labels, uidPlus: bool, at: Selection, uid: nat, target: bytes)
    requires ValidLabels(l)
    ensures var (t, completion) := Perform(l, uidPlus, UidCopy(at, uid, target));
            && (completion == Bad <==> at.selected == [])
            && (completion == Ok <==>
                  exists k: nat, d: nat :: k < |l.views| && d < |l.views|
                    && Writes(l, at, FolderRole, k) && Labelled(l, target, d) && Placeable(l.views[k], l.views[d], uid))
            && (completion != Ok ==> t == l)
            && forall k: nat, d: nat :: completion == Ok && Called(l, at.selected, k) && Called(l, target, d) ==> Copied(l, t, k, d, uid)
  {
    hide ValidLabels, Folders, FindView, NameMatches, FoldIs, ByUid, ByMessage, Holds, Shows, ValidView, SelectableAttributes;
    CalledIs(l, at.selected);
    CalledIs(l, target);
    var k, d := FindView(l.views, at.selected), FindView(l.views, target);
    if k < |l.views| && d < |l.views| {
      ViewIsValid(l, k);
      ShownBy(l.views[k], |l.messages|, uid);
      MayBeSelected(l.views[d].attributes);
      var i := ByUid(l.views[k].members, uid);
      if i < |l.views[k].members| {
        HeldBy(l.views[d].members, l.views[k].members[i].message);
        MemberKnown(l.views[k], |l.messages|, i);
      }
      ViewIsValid(l, d);
      NextValid(l.views[d], |l.messages|);
      var completion := Perform(l, uidPlus, UidCopy(at, uid, target)).1;
      if completion == Ok {
        assert Writes(l, at, FolderRole, k) && Labelled(l, target, d) && Placeable(l.views[k], l.views[d], uid);
      }
    }
  }

  // ---- The mark and UID EXPUNGE ----

  /** The member of that UID is marked, and nothing else is touched. */
  ghost predicate MarkedAt(l: Labels, t: Labels, k: nat, uid: nat)
    requires k < |l.views|
  {
    && OnlyView(l, t, k)
    && t.views[k] == l.views[k].(members := t.views[k].members) && |t.views[k].members| == |l.views[k].members|
    && forall i :: 0 <= i < |l.views[k].members| ==>
         var x := l.views[k].members[i]; t.views[k].members[i] == if x.uid == uid then x.(deleted := true) else x
  }

  lemma MarkIs(l: Labels, uidPlus: bool, at: Selection, uid: nat)
    requires ValidLabels(l)
    ensures var (t, completion) := Perform(l, uidPlus, MarkDeleted(at, uid));
            && (completion == Bad <==> at.selected == [])
            && (completion == Ok <==> exists k: nat :: Writes(l, at, LabelRole, k))
            && (completion != Ok ==> t == l)
            && forall k: nat :: completion == Ok && Called(l, at.selected, k) ==> MarkedAt(l, t, k, uid)
  {
    hide ValidLabels, Folders, FindView, NameMatches, ByUid, DistinctMessages;
    CalledIs(l, at.selected);
    var k := FindView(l.views, at.selected);
    if k < |l.views| {
      ViewIsValid(l, k);
      var completion := Perform(l, uidPlus, MarkDeleted(at, uid)).1;
      if completion == Ok {
        assert Writes(l, at, LabelRole, k);
      }
    }
  }

  /** The marked member of that UID is gone, and it alone. */
  ghost predicate ExpungedAt(l: Labels, t: Labels, k: nat, uid: nat)
    requires k < |l.views|
  {
    && OnlyView(l, t, k)
    && t.views[k] == l.views[k].(members := t.views[k].members) && AscendingUids(t.views[k].members)
    && forall x :: x in t.views[k].members <==> x in l.views[k].members && !(x.uid == uid && x.deleted)
  }

  lemma WithoutMarked(v: View, messages: nat, uid: nat)
    requires ValidView(v, messages)
    ensures var i := Marked(v.members, uid);
            var rest := if i < |v.members| then Without(v.members, i) else v.members;
            AscendingUids(rest) && forall x :: x in rest <==> x in v.members && !(x.uid == uid && x.deleted)
  {
    hide Marked, Without, DistinctMessages;
    var i := Marked(v.members, uid);
    if i < |v.members| {
      var rest := Without(v.members, i);
      forall j | 0 <= j < |v.members| && j != i ensures v.members[j] in rest {
        assert rest[if j < i then j else j - 1] == v.members[j];
      }
    }
  }

  lemma ExpungeIs(l: Labels, uidPlus: bool, at: Selection, uid: nat)
    requires ValidLabels(l)
    ensures var (t, completion) := Perform(l, uidPlus, UidExpunge(at, uid));
            && (completion == Bad <==> !uidPlus || at.selected == [])
            && (completion == Ok <==> uidPlus && exists k: nat :: Writes(l, at, LabelRole, k))
            && (completion != Ok ==> t == l)
            && forall k: nat :: completion == Ok && Called(l, at.selected, k) ==> ExpungedAt(l, t, k, uid)
  {
    hide ValidLabels, Folders, FindView, NameMatches, Marked, Without, ValidView, AscendingUids;
    CalledIs(l, at.selected);
    var k := FindView(l.views, at.selected);
    if k < |l.views| {
      ViewIsValid(l, k);
      WithoutMarked(l.views[k], |l.messages|, uid);
      var completion := Perform(l, uidPlus, UidExpunge(at, uid)).1;
      if completion == Ok {
        assert Writes(l, at, LabelRole, k);
      }
    }
  }
}
