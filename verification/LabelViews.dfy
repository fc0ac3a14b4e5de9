/** The linked folder and label views of the label fixture, and what its three
    mutations keep over every run (internal/testkit/labels.go:107-226, 240-262,
    432-610). */
module LabelViews {
  import opened Octets
  import opened MailStore
  import opened MailServer

  datatype Role = FolderRole | LabelRole

  /** A message identity and the state all its views share. */
  datatype LabelMessage = LabelMessage(id: bytes, flags: seq<flag>, body: bytes)

  /** A message, by its place, in one view. */
  datatype Member = Member(message: nat, uid: nat, deleted: bool)

  datatype View = View(name: bytes, role: Role, attributes: seq<flag>, uidValidity: nat, uidNext: nat, members: seq<Member>)

  datatype Labels = Labels(messages: seq<LabelMessage>, views: seq<View>)

  // ---- What always holds ----

  ghost predicate AscendingUids(members: seq<Member>) {
    forall i, j :: 0 <= i < j < |members| ==> members[i].uid < members[j].uid
  }

  ghost predicate DistinctMessages(members: seq<Member>) {
    forall i, j :: 0 <= i < j < |members| ==> members[i].message != members[j].message
  }

  /** UIDs strictly ascend below a valid 32-bit UIDNEXT, and no message is in
      the view twice. */
  ghost predicate ValidView(v: View, messages: nat) {
    && AscendingUids(v.members) && DistinctMessages(v.members)
    && 1 <= v.uidNext <= MAX_UINT32
    && forall i :: 0 <= i < |v.members| ==> v.members[i].message < messages && 1 <= v.members[i].uid < v.uidNext
  }

  ghost predicate Holds(members: seq<Member>, message: nat) {
    exists i :: 0 <= i < |members| && members[i].message == message
  }

  /** The number of folders that hold a message. */
  ghost function Folders(views: seq<View>, message: nat): nat {
    if views == [] then 0
    else (if views[0].role == FolderRole && Holds(views[0].members, message) then 1 else 0) + Folders(views[1..], message)
  }

  ghost predicate ValidLabels(l: Labels) {
    && (forall i :: 0 <= i < |l.views| ==> ValidView(l.views[i], |l.messages|))
    && (forall i, j :: 0 <= i < j < |l.views| ==> !NameMatches(l.views[i].name, l.views[j].name))
    && (forall m :: 0 <= m < |l.messages| ==> Folders(l.views, m) == 1)
  }

  // ---- The commands ----

  function FindView(views: seq<View>, name: bytes): (k: nat)
    ensures k <= |views|
    ensures k < |views| ==> NameMatches(views[k].name, name)
  {
    if views == [] || NameMatches(views[0].name, name) then 0 else 1 + FindView(views[1..], name)
  }

  function ByUid(members: seq<Member>, uid: nat): (k: nat)
    ensures k <= |members| && (k < |members| ==> members[k].uid == uid)
    ensures forall i :: 0 <= i < k ==> members[i].uid != uid
  {
    if members == [] || members[0].uid == uid then 0 else 1 + ByUid(members[1..], uid)
  }

  function ByMessage(members: seq<Member>, message: nat): (k: nat)
    ensures k <= |members| && (k < |members| ==> members[k].message == message)
    ensures forall i :: 0 <= i < k ==> members[i].message != message
  {
    if members == [] || members[0].message == message then 0 else 1 + ByMessage(members[1..], message)
  }

  /** The member of that UID that is marked. */
  function Marked(members: seq<Member>, uid: nat): (k: nat)
    ensures k <= |members| && (k < |members| ==> members[k].uid == uid && members[k].deleted)
    ensures forall i :: 0 <= i < k ==> !(members[i].uid == uid && members[i].deleted)
  {
    if members == [] || (members[0].uid == uid && members[0].deleted) then 0 else 1 + Marked(members[1..], uid)
  }

  function Without(members: seq<Member>, i: nat): (r: seq<Member>)
    requires i < |members|
    ensures |r| == |members| - 1 && forall j :: 0 <= j < |r| ==> r[j] == members[if j < i then j else j + 1]
  {
    members[..i] + members[i + 1..]
  }

  datatype LabelCommand =
    | UidCopy(at: Selection, uid: nat, target: bytes)
    | MarkDeleted(at: Selection, uid: nat)
    | UidExpunge(at: Selection, uid: nat)

  function Added(v: View, message: nat): View {
    v.(members := v.members + [Member(message, v.uidNext, false)], uidNext := v.uidNext + 1)
  }

  function CopyTo(l: Labels, k: nat, uid: nat, target: bytes): (Labels, Completion)
    requires k < |l.views|
  {
    var d := FindView(l.views, target);
    if l.views[k].role != FolderRole || d == |l.views| || l.views[d].role != LabelRole || !SelectableAttributes(l.views[d].attributes) then (l, No)
    else
      var i := ByUid(l.views[k].members, uid);
      if i == |l.views[k].members| || ByMessage(l.views[d].members, l.views[k].members[i].message) < |l.views[d].members| then (l, Ok)
      else if l.views[d].uidNext == MAX_UINT32 then (l, No)
      else (l.(views := l.views[d := Added(l.views[d], l.views[k].members[i].message)]), Ok)
  }

  function MarkIn(l: Labels, k: nat, uid: nat): (Labels, Completion)
    requires k < |l.views|
  {
    var v := l.views[k];
    if v.role != LabelRole then (l, No)
    else
      var i := ByUid(v.members, uid);
      if i == |v.members| then (l, Ok)
      else (l.(views := l.views[k := v.(members := v.members[i := v.members[i].(deleted := true)])]), Ok)
  }

  function ExpungeIn(l: Labels, k: nat, uid: nat): (Labels, Completion)
    requires k < |l.views|
  {
    var v := l.views[k];
    if v.role != LabelRole then (l, No)
    else
      var i := Marked(v.members, uid);
      if i == |v.members| then (l, Ok)
      else (l.(views := l.views[k := v.(members := Without(v.members, i))]), Ok)
  }

  /** One command of one connection; without UIDPLUS there is no UID EXPUNGE. */
  function Perform(l: Labels, uidPlus: bool, c: LabelCommand): (Labels, Completion) {
    var k := FindView(l.views, c.at.selected);
    if c.UidExpunge? && !uidPlus then (l, Bad)
    else if c.at.selected == [] then (l, Bad)
    else if k == |l.views| || c.at.readOnly then (l, No)
    else
      match c
      case UidCopy(_, uid, target) => CopyTo(l, k, uid, target)
      case MarkDeleted(_, uid) => MarkIn(l, k, uid)
      case UidExpunge(_, uid) => ExpungeIn(l, k, uid)
  }

  // ---- What one command may change ----

  /** The member is still in the view, with its mark if it had one. */
  ghost predicate Stays(m: Member, later: seq<Member>) {
    exists i :: 0 <= i < |later| && later[i].uid == m.uid && later[i].message == m.message && (m.deleted ==> later[i].deleted)
  }

  ghost predicate WasThere(m: Member, earlier: seq<Member>) {
    exists i :: 0 <= i < |earlier| && earlier[i].uid == m.uid && earlier[i].message == m.message
  }

  /** A folder never changes; a label view keeps its name and generation, never
      decreases UIDNEXT, gives every UID below it to the message that had it,
      and loses only members that were marked. */
  ghost predicate StepsTo(v: View, later: View) {
    && later == v.(uidNext := later.uidNext, members := later.members)
    && (v.role == FolderRole ==> later == v)
    && v.uidNext <= later.uidNext
    && (forall i :: 0 <= i < |later.members| && later.members[i].uid < v.uidNext ==> WasThere(later.members[i], v.members))
    && (forall i :: 0 <= i < |v.members| && !v.members[i].deleted ==> Stays(v.members[i], later.members))
  }

  ghost predicate LabelsStep(l: Labels, later: Labels) {
    && later.messages == l.messages && |later.views| == |l.views|
    && forall i :: 0 <= i < |l.views| ==> StepsTo(l.views[i], later.views[i])
  }

  lemma SameSteps(v: View)
    ensures StepsTo(v, v)
  {
    forall i | 0 <= i < |v.members| ensures WasThere(v.members[i], v.members) && Stays(v.members[i], v.members) {
    }
  }

  lemma {:induction false} FoldersKept(before: seq<View>, views: seq<View>, m: nat)
    requires |views| == |before|
    requires forall i :: 0 <= i < |views| ==> views[i].role == before[i].role && (views[i].role == FolderRole ==> views[i] == before[i])
    ensures Folders(views, m) == Folders(before, m)
    decreases |views|
  {
    hide Holds;
    if views != [] {
      FoldersKept(before[1..], views[1..], m);
    }
  }

  /** Changing one label view validly keeps the whole valid. */
  lemma OneView(l: Labels, d: nat, v: View)
    requires ValidLabels(l) && d < |l.views| && l.views[d].role == LabelRole && StepsTo(l.views[d], v) && ValidView(v, |l.messages|)
    ensures var later := l.(views := l.views[d := v]); ValidLabels(later) && LabelsStep(l, later)
  {
    hide ValidView, NameMatches, Holds;
    var later := l.(views := l.views[d := v]);
    forall i | 0 <= i < |l.views| ensures StepsTo(l.views[i], later.views[i]) {
      if i != d {
        SameSteps(l.views[i]);
      }
    }
    forall m | 0 <= m < |l.messages| ensures Folders(later.views, m) == 1 {
      FoldersKept(l.views, later.views, m);
    }
    forall i, j | 0 <= i < j < |later.views| ensures !NameMatches(later.views[i].name, later.views[j].name) {
      assert later.views[i].name == l.views[i].name && later.views[j].name == l.views[j].name;
    }
  }

  lemma AddedValid(v: View, message: nat, messages: nat)
    requires ValidView(v, messages) && message < messages && v.uidNext < MAX_UINT32
    requires ByMessage(v.members, message) == |v.members|
    ensures ValidView(Added(v, message), messages)
  {
    var later := Added(v, message).members;
    assert forall i :: 0 <= i < |v.members| ==> later[i] == v.members[i] && later[i].message != message;
    assert later[|v.members|] == Member(message, v.uidNext, false);
  }

  lemma AddedSteps(v: View, message: nat, messages: nat)
    requires ValidView(v, messages) && v.role == LabelRole && message < messages && v.uidNext < MAX_UINT32
    requires ByMessage(v.members, message) == |v.members|
    ensures StepsTo(v, Added(v, message)) && ValidView(Added(v, message), messages)
  {
    hide ByMessage;
    AddedValid(v, message, messages);
    var later := Added(v, message);
    assert forall i :: 0 <= i < |v.members| ==> later.members[i] == v.members[i];
    forall i | 0 <= i < |v.members| ensures Stays(v.members[i], later.members) && WasThere(later.members[i], v.members) {
    }
  }

  lemma MarkedSteps(v: View, i: nat, messages: nat)
    requires ValidView(v, messages) && v.role == LabelRole && i < |v.members|
    ensures var later := v.(members := v.members[i := v.members[i].(deleted := true)]); StepsTo(v, later) && ValidView(later, messages)
  {
    var later := v.(members := v.members[i := v.members[i].(deleted := true)]);
    assert forall j :: 0 <= j < |v.members| ==> later.members[j].uid == v.members[j].uid && later.members[j].message == v.members[j].message;
  }

  lemma RemovedSteps(v: View, i: nat, messages: nat)
    requires ValidView(v, messages) && v.role == LabelRole && i < |v.members| && v.members[i].deleted
    ensures var later := v.(members := Without(v.members, i)); StepsTo(v, later) && ValidView(later, messages)
  {
    hide Without;
    var later := v.(members := Without(v.members, i));
    forall j | 0 <= j < |later.members| ensures WasThere(later.members[j], v.members) {
      assert later.members[j] == v.members[if j < i then j else j + 1];
    }
    forall j | 0 <= j < |v.members| && !v.members[j].deleted ensures Stays(v.members[j], later.members) {
      assert later.members[if j < i then j else j - 1] == v.members[j];
    }
  }

  /** Every command keeps the labels valid and changes only what it may. */
  lemma PerformKeeps(l: Labels, uidPlus: bool, c: LabelCommand)
    requires ValidLabels(l)
    ensures ValidLabels(Perform(l, uidPlus, c).0) && LabelsStep(l, Perform(l, uidPlus, c).0)
  {
    hide ValidView, NameMatches, Folders, StepsTo, FindView, ByUid, ByMessage, Marked, Without;
    forall i | 0 <= i < |l.views| ensures StepsTo(l.views[i], l.views[i]) {
      SameSteps(l.views[i]);
    }
    var k := FindView(l.views, c.at.selected);
    if Perform(l, uidPlus, c).0 != l {
      match c
      case UidCopy(_, uid, target) =>
        var d, i := FindView(l.views, target), ByUid(l.views[k].members, uid);
        MemberKnown(l.views[k], |l.messages|, i);
        AddedSteps(l.views[d], l.views[k].members[i].message, |l.messages|) by { NextValid(l.views[d], |l.messages|); }
        OneView(l, d, Added(l.views[d], l.views[k].members[i].message));
      case MarkDeleted(_, uid) =>
        var v, i := l.views[k], ByUid(l.views[k].members, uid);
        MarkedSteps(v, i, |l.messages|);
        OneView(l, k, v.(members := v.members[i := v.members[i].(deleted := true)]));
      case UidExpunge(_, uid) =>
        var v, i := l.views[k], Marked(l.views[k].members, uid);
        RemovedSteps(v, i, |l.messages|);
        OneView(l, k, v.(members := Without(v.members, i)));
    }
  }

  lemma MemberKnown(v: View, messages: nat, i: nat)
    requires ValidView(v, messages) && i < |v.members|
    ensures v.members[i].message < messages
  {
  }

  lemma NextValid(v: View, messages: nat)
    requires ValidView(v, messages)
    ensures v.uidNext <= MAX_UINT32
  {
  }

  // ---- Every run ----

  /** The states of a run, the first included. */
  function RunOf(l: Labels, uidPlus: bool, commands: seq<LabelCommand>): (r: seq<Labels>)
    ensures |r| == |commands| + 1 && r[0] == l
    decreases |commands|
  {
    [l] + if commands == [] then [] else RunOf(Perform(l, uidPlus, commands[0]).0, uidPlus, commands[1..])
  }

  /** Nothing that all views share ever changes, folders least of all, and UIDs
      are never reused. */
  ghost predicate RunsTo(l: Labels, later: Labels) {
    && later.messages == l.messages && |later.views| == |l.views|
    && forall i :: 0 <= i < |l.views| ==> NeverReuses(l.views[i], later.views[i])
  }

  ghost predicate NeverReuses(v: View, later: View) {
    && later == v.(uidNext := later.uidNext, members := later.members)
    && (v.role == FolderRole ==> later == v)
    && v.uidNext <= later.uidNext
    && forall i :: 0 <= i < |later.members| && later.members[i].uid < v.uidNext ==> WasThere(later.members[i], v.members)
  }

  lemma NeverReusesThen(a: View, b: View, c: View)
    requires NeverReuses(a, b) && NeverReuses(b, c)
    ensures NeverReuses(a, c)
  {
    forall i | 0 <= i < |c.members| && c.members[i].uid < a.uidNext ensures WasThere(c.members[i], a.members) {
      assert WasThere(c.members[i], b.members);
      var j :| 0 <= j < |b.members| && b.members[j].uid == c.members[i].uid && b.members[j].message == c.members[i].message;
      assert WasThere(b.members[j], a.members);
    }
  }

  /** In every state of every run the labels are valid, messages and folders are
      as at the start, and no view has given a UID to a second message. */
  lemma {:induction false} RunKeepsLabels(l: Labels, uidPlus: bool, commands: seq<LabelCommand>, n: nat)
    requires ValidLabels(l) && n <= |commands|
    ensures ValidLabels(RunOf(l, uidPlus, commands)[n]) && RunsTo(l, RunOf(l, uidPlus, commands)[n])
    decreases |commands|
  {
    hide ValidLabels, Perform, StepsTo, NeverReuses;
    if n == 0 {
      forall i | 0 <= i < |l.views| ensures NeverReuses(l.views[i], l.views[i]) {
        SameSteps(l.views[i]);
        StepNeverReuses(l.views[i], l.views[i]);
      }
    } else {
      var next := Perform(l, uidPlus, commands[0]).0;
      PerformKeeps(l, uidPlus, commands[0]);
      RunKeepsLabels(next, uidPlus, commands[1..], n - 1);
      var last := RunOf(next, uidPlus, commands[1..])[n - 1];
      assert RunOf(l, uidPlus, commands)[n] == last;
      forall i | 0 <= i < |l.views| ensures NeverReuses(l.views[i], last.views[i]) {
        StepNeverReuses(l.views[i], next.views[i]);
        NeverReusesThen(l.views[i], next.views[i], last.views[i]);
      }
    }
  }

  lemma StepNeverReuses(v: View, later: View)
    requires StepsTo(v, later)
    ensures NeverReuses(v, later)
  {
  }

  ghost predicate MarkedIn(l: Labels, i: nat, uid: nat, message: nat) {
    i < |l.views| && exists j :: 0 <= j < |l.views[i].members|
                       && l.views[i].members[j] == Member(message, uid, true)
  }

  /** A member that a run removes from a view was marked in that view at some
      state of the run before. */
  lemma {:induction false} LostWasMarked(l: Labels, uidPlus: bool, commands: seq<LabelCommand>, i: nat, j: nat)
    returns (n: nat)
    requires ValidLabels(l) && i < |l.views| && j < |l.views[i].members|
    requires var last := RunOf(l, uidPlus, commands)[|commands|];
             |last.views| == |l.views| && !WasThere(l.views[i].members[j], last.views[i].members)
    ensures n < |commands| && MarkedIn(RunOf(l, uidPlus, commands)[n], i, l.views[i].members[j].uid, l.views[i].members[j].message)
    decreases |commands|
  {
    hide ValidLabels, Perform;
    var m := l.views[i].members[j];
    assert WasThere(m, l.views[i].members);
    assert commands != [];
    if m.deleted {
      n := 0;
      assert m == Member(m.message, m.uid, true);
    } else {
      var next := Perform(l, uidPlus, commands[0]).0;
      PerformKeeps(l, uidPlus, commands[0]);
      assert StepsTo(l.views[i], next.views[i]) && Stays(m, next.views[i].members);
      var k :| 0 <= k < |next.views[i].members| && next.views[i].members[k].uid == m.uid && next.views[i].members[k].message == m.message;
      var last := RunOf(next, uidPlus, commands[1..])[|commands| - 1];
      assert RunOf(l, uidPlus, commands)[|commands|] == last;
      n := LostWasMarked(next, uidPlus, commands[1..], i, k);
      n := n + 1;
      assert RunOf(l, uidPlus, commands)[n] == RunOf(next, uidPlus, commands[1..])[n - 1];
    }
  }
}
