/** Which listed mailbox a move may target (bridge/move.go:23-74, 247-329). */
module MoveDestination {
  import opened Octets
  import opened Wrappers
  import opened MailStore

  const SENT: bytes := [0x5c, 0x53, 0x45, 0x4e, 0x54]
  const DRAFTS: bytes := [0x5c, 0x44, 0x52, 0x41, 0x46, 0x54, 0x53]
  const JUNK: bytes := [0x5c, 0x4a, 0x55, 0x4e, 0x4b]
  const ARCHIVE: bytes := [0x5c, 0x41, 0x52, 0x43, 0x48, 0x49, 0x56, 0x45]
  const TRASH: bytes := [0x5c, 0x54, 0x52, 0x41, 0x53, 0x48]
  const ALL_VIEW: bytes := [0x5c, 0x41, 0x4c, 0x4c]
  const FLAGGED: bytes := [0x5c, 0x46, 0x4c, 0x41, 0x47, 0x47, 0x45, 0x44]
  const ALL_MAIL: bytes := [0x41, 0x4c, 0x4c, 0x20, 0x4d, 0x41, 0x49, 0x4c]
  const STARRED: bytes := [0x53, 0x54, 0x41, 0x52, 0x52, 0x45, 0x44]
  const FOLDERS: bytes := [0x46, 0x6f, 0x6c, 0x64, 0x65, 0x72, 0x73, 0x2f]
  const LABELS: bytes := [0x4c, 0x61, 0x62, 0x65, 0x6c, 0x73, 0x2f]
  const SLASH: byte := 0x2f

  /** One mailbox of a fresh listing; delimiter is empty when it has none. */
  datatype Listed = Listed(name: bytes, delimiter: bytes, attributes: seq<bytes>)

  predicate HasAttribute(attributes: seq<bytes>, wanted: seq<bytes>) {
    exists i, j :: 0 <= i < |attributes| && 0 <= j < |wanted| && FoldIs(attributes[i], wanted[j])
  }

  predicate RefusedMailbox(m: Listed) {
    HasAttribute(m.attributes, [NOSELECT, NONEXISTENT, ALL_VIEW, FLAGGED])
  }

  predicate SystemMailbox(m: Listed) {
    HasAttribute(m.attributes, [SENT, DRAFTS, JUNK, ARCHIVE, TRASH])
  }

  predicate ContainsText(s: bytes, t: bytes) {
    HasPrefix(s, t) || (s != [] && ContainsText(s[1..], t))
  }

  predicate HierarchyRoot(m: Listed) {
    SLASH !in m.name && (m.delimiter == [] || !ContainsText(m.name, m.delimiter))
  }

  predicate UserFolder(m: Listed) {
    m.delimiter == [SLASH] && HasPrefix(m.name, FOLDERS) && |m.name| > |FOLDERS|
  }

  /** The exact target a listed mailbox stands for, if it is one. */
  function TargetOf(m: Listed): Option<bytes> {
    if RefusedMailbox(m) then None
    else if FoldIs(m.name, INBOX) then Some(INBOX)
    else if UserFolder(m) || (HierarchyRoot(m) && SystemMailbox(m)) then Some(m.name)
    else None
  }

  /** A mailbox that a move may write to: no attribute forbids selecting it or
      makes it a view of other mailboxes, and it is INBOX, lies under Folders/,
      or stands at the root with the attribute of a system mailbox. */
  ghost predicate MayReceive(m: Listed) {
    && (forall a :: a in m.attributes ==> !Refuses(a))
    && (|| FoldIs(m.name, INBOX)
        || (m.delimiter == [SLASH] && exists rest :: rest != [] && m.name == FOLDERS + rest)
        || (&& SLASH !in m.name
            && (m.delimiter == [] || forall i :: 0 <= i <= |m.name| ==> !HasPrefix(m.name[i..], m.delimiter))
            && exists a :: a in m.attributes && HasSystemName(a)))
  }

  predicate Refuses(a: bytes) {
    FoldIs(a, NOSELECT) || FoldIs(a, NONEXISTENT) || FoldIs(a, ALL_VIEW) || FoldIs(a, FLAGGED)
  }

  predicate HasSystemName(a: bytes) {
    FoldIs(a, SENT) || FoldIs(a, DRAFTS) || FoldIs(a, JUNK) || FoldIs(a, ARCHIVE) || FoldIs(a, TRASH)
  }

  /** The name a move to the mailbox sends. */
  function WrittenName(m: Listed): bytes {
    if FoldIs(m.name, INBOX) then INBOX else m.name
  }

  lemma {:induction false} ContainsIff(s: bytes, t: bytes)
    ensures ContainsText(s, t) <==> exists i :: 0 <= i <= |s| && HasPrefix(s[i..], t)
    decreases |s|
  {
    assert s[0..] == s;
    if s != [] {
      ContainsIff(s[1..], t);
      forall i | 0 < i <= |s| ensures s[i..] == s[1..][i - 1..] {
      }
      if i :| 0 <= i <= |s| - 1 && HasPrefix(s[1..][i..], t) {
        assert s[i + 1..] == s[1..][i..];
      }
    }
  }

  predicate Wanted(a: bytes, wanted: seq<bytes>) {
    exists j :: 0 <= j < |wanted| && FoldIs(a, wanted[j])
  }

  lemma HasWanted(attributes: seq<bytes>, wanted: seq<bytes>)
    ensures HasAttribute(attributes, wanted) <==> exists a :: a in attributes && Wanted(a, wanted)
  {
    hide FoldIs;
    if i, j :| 0 <= i < |attributes| && 0 <= j < |wanted| && FoldIs(attributes[i], wanted[j]) {
      assert attributes[i] in attributes && Wanted(attributes[i], wanted);
    }
  }

  lemma WantedRefused(a: bytes)
    ensures Wanted(a, [NOSELECT, NONEXISTENT, ALL_VIEW, FLAGGED]) <==> Refuses(a)
  {
    hide FoldIs;
    var wanted := [NOSELECT, NONEXISTENT, ALL_VIEW, FLAGGED];
    assert wanted[0] == NOSELECT && wanted[1] == NONEXISTENT && wanted[2] == ALL_VIEW && wanted[3] == FLAGGED;
  }

  lemma WantedSystem(a: bytes)
    ensures Wanted(a, [SENT, DRAFTS, JUNK, ARCHIVE, TRASH]) <==> HasSystemName(a)
  {
    hide FoldIs;
    var wanted := [SENT, DRAFTS, JUNK, ARCHIVE, TRASH];
    assert wanted[0] == SENT && wanted[1] == DRAFTS && wanted[2] == JUNK && wanted[3] == ARCHIVE && wanted[4] == TRASH;
  }

  lemma AttributesAre(m: Listed)
    ensures RefusedMailbox(m) <==> exists a :: a in m.attributes && Refuses(a)
    ensures SystemMailbox(m) <==> exists a :: a in m.attributes && HasSystemName(a)
  {
    hide HasAttribute, Wanted, Refuses, HasSystemName;
    HasWanted(m.attributes, [NOSELECT, NONEXISTENT, ALL_VIEW, FLAGGED]);
    HasWanted(m.attributes, [SENT, DRAFTS, JUNK, ARCHIVE, TRASH]);
    forall a ensures Wanted(a, [NOSELECT, NONEXISTENT, ALL_VIEW, FLAGGED]) <==> Refuses(a) {
      WantedRefused(a);
    }
    forall a ensures Wanted(a, [SENT, DRAFTS, JUNK, ARCHIVE, TRASH]) <==> HasSystemName(a) {
      WantedSystem(a);
    }
  }

  /** The listed mailbox is a target exactly when a move may write to it. */
  lemma TargetOfIff(m: Listed, t: bytes)
    ensures TargetOf(m) == Some(t) <==> MayReceive(m) && t == WrittenName(m)
  {
    hide FoldIs, RefusedMailbox, SystemMailbox, HasPrefix, ContainsText, HasSystemName;
    AttributesAre(m);
    ContainsIff(m.name, m.delimiter);
    UnderFolders(m.name);
  }

  lemma UnderFolders(name: bytes)
    ensures HasPrefix(name, FOLDERS) && |name| > |FOLDERS| <==> exists rest :: rest != [] && name == FOLDERS + rest
  {
    if HasPrefix(name, FOLDERS) && |name| > |FOLDERS| {
      assert name == FOLDERS + name[|FOLDERS|..];
    }
  }

  /** The place of the one mailbox that has the property, if exactly one has. */
  function Sole(marks: seq<bool>): Option<nat> {
    if marks == [] then None
    else
      var later := Sole(marks[1..]);
      if marks[0] then (if true in marks[1..] then None else Some(0))
      else if later.Some? then Some(later.value + 1) else None
  }

  lemma {:induction false} SoleIff(marks: seq<bool>, k: nat)
    ensures Sole(marks) == Some(k) <==> k < |marks| && marks[k] && forall j :: 0 <= j < |marks| && j != k ==> !marks[j]
    decreases |marks|
  {
    if marks != [] {
      assert forall j :: 0 < j < |marks| ==> marks[j] == marks[1..][j - 1];
      assert forall j :: 0 <= j < |marks| - 1 ==> marks[1..][j] == marks[j + 1];
      if k > 0 {
        SoleIff(marks[1..], k - 1);
      }
    }
  }

  function NamedMarks(listing: seq<Listed>, destination: bytes): (r: seq<bool>)
    ensures |r| == |listing| && forall i :: 0 <= i < |r| ==> r[i] == NameMatches(destination, listing[i].name)
  {
    seq(|listing|, i requires 0 <= i < |listing| => NameMatches(destination, listing[i].name))
  }

  function AttributeMarks(listing: seq<Listed>, attribute: bytes): (r: seq<bool>)
    ensures |r| == |listing| && forall i :: 0 <= i < |r| ==> r[i] == HasAttribute(listing[i].attributes, [attribute])
  {
    seq(|listing|, i requires 0 <= i < |listing| => HasAttribute(listing[i].attributes, [attribute]))
  }

  function NamedTarget(listing: seq<Listed>, destination: bytes): Option<bytes> {
    var k := Sole(NamedMarks(listing, destination));
    if k.None? || k.value >= |listing| then None else TargetOf(listing[k.value])
  }

  predicate AggregateView(name: bytes) {
    FoldIs(name, ALL_MAIL) || FoldIs(name, STARRED)
  }

  function AttributeTarget(listing: seq<Listed>, attribute: bytes): Option<bytes> {
    var k := Sole(AttributeMarks(listing, attribute));
    if k.None? || k.value >= |listing| || AggregateView(listing[k.value].name) then None
    else NamedTarget(listing, listing[k.value].name)
  }

  /** How a request names its target: exactly, or by one protocol attribute
      that must not lead back to the source. */
  datatype Resolver = Exactly(destination: bytes) | ByAttribute(attribute: bytes, source: bytes)

  function Resolve(r: Resolver, listing: seq<Listed>): Option<bytes> {
    match r
    case Exactly(destination) => NamedTarget(listing, destination)
    case ByAttribute(attribute, source) =>
      var target := AttributeTarget(listing, attribute);
      if target.None? || NameMatches(source, target.value) then None else target
  }

  /** A resolved exact name is the one listed mailbox of that name, and it is
      INBOX, a user folder or a system mailbox at the hierarchy root, never
      refused by its attributes and never under Labels/. */
  lemma NamedTargetIff(listing: seq<Listed>, destination: bytes, t: bytes)
    ensures NamedTarget(listing, destination) == Some(t) <==>
              exists k :: 0 <= k < |listing| && OnlyNamed(listing, destination, k) && TargetOf(listing[k]) == Some(t)
  {
    hide TargetOf, NameMatches;
    if NamedTarget(listing, destination) == Some(t) {
      var k := Sole(NamedMarks(listing, destination)).value;
      SoleIff(NamedMarks(listing, destination), k);
      assert OnlyNamed(listing, destination, k);
    }
    if k :| 0 <= k < |listing| && OnlyNamed(listing, destination, k) && TargetOf(listing[k]) == Some(t) {
      SoleIff(NamedMarks(listing, destination), k);
    }
  }

  ghost predicate OnlyNamed(listing: seq<Listed>, destination: bytes, k: nat) {
    k < |listing| && NameMatches(destination, listing[k].name)
    && forall j :: 0 <= j < |listing| && j != k ==> !NameMatches(destination, listing[j].name)
  }

  ghost predicate OnlyHolder(listing: seq<Listed>, attribute: bytes, k: nat) {
    k < |listing| && HasAttribute(listing[k].attributes, [attribute])
    && forall j :: 0 <= j < |listing| && j != k ==> !HasAttribute(listing[j].attributes, [attribute])
  }

  /** What the k-th listed mailbox is to a request by attribute. */
  ghost function HolderTarget(listing: seq<Listed>, attribute: bytes, k: nat): Option<bytes>
    requires k < |listing|
  {
    if OnlyHolder(listing, attribute, k) && !AggregateView(listing[k].name) && OnlyNamed(listing, listing[k].name, k)
    then TargetOf(listing[k]) else None
  }

  /** A resolved attribute is held by one listed mailbox only, whose name is
      listed once, is no aggregate view and is an allowed target. */
  lemma AttributeTargetIff(listing: seq<Listed>, attribute: bytes, t: bytes)
    ensures AttributeTarget(listing, attribute) == Some(t) <==>
              exists k :: 0 <= k < |listing| && HolderTarget(listing, attribute, k) == Some(t)
  {
    hide TargetOf, NameMatches, HasAttribute, AggregateView;
    if AttributeTarget(listing, attribute) == Some(t) {
      var k := Sole(AttributeMarks(listing, attribute)).value;
      SoleIff(AttributeMarks(listing, attribute), k);
      NamedTargetIff(listing, listing[k].name, t);
      var n :| 0 <= n < |listing| && OnlyNamed(listing, listing[k].name, n) && TargetOf(listing[n]) == Some(t);
      SelfMatches(listing[k].name);
      assert OnlyHolder(listing, attribute, k) && n == k;
      assert HolderTarget(listing, attribute, k) == Some(t);
    }
    if k :| 0 <= k < |listing| && HolderTarget(listing, attribute, k) == Some(t) {
      HolderFound(listing, attribute, k, t);
    }
  }

  lemma HolderFound(listing: seq<Listed>, attribute: bytes, k: nat, t: bytes)
    requires k < |listing| && HolderTarget(listing, attribute, k) == Some(t)
    ensures AttributeTarget(listing, attribute) == Some(t)
  {
    hide TargetOf, NameMatches, HasAttribute, AggregateView;
    assert OnlyHolder(listing, attribute, k) && OnlyNamed(listing, listing[k].name, k) && TargetOf(listing[k]) == Some(t);
    SoleIff(AttributeMarks(listing, attribute), k);
    NamedTargetIff(listing, listing[k].name, t);
  }

  /** The k-th listed mailbox is the one the request means, and a move may write
      to it: the only one of the name, or the only holder of the attribute, its
      name listed once, that is no aggregate view and not the source itself. */
  ghost predicate Requested(r: Resolver, listing: seq<Listed>, k: nat) {
    && k < |listing| && MayReceive(listing[k])
    && match r
       case Exactly(destination) => OnlyNamed(listing, destination, k)
       case ByAttribute(attribute, source) =>
         && OnlyHolder(listing, attribute, k) && OnlyNamed(listing, listing[k].name, k)
         && !FoldIs(listing[k].name, ALL_MAIL) && !FoldIs(listing[k].name, STARRED)
         && !NameMatches(source, listing[k].name)
  }

  lemma WrittenMatches(source: bytes, m: Listed)
    ensures NameMatches(source, WrittenName(m)) <==> NameMatches(source, m.name)
  {
    hide FoldIs;
    InboxFolds();
  }

  /** A move is sent to exactly the listed mailbox that its request means. */
  lemma ResolveIff(r: Resolver, listing: seq<Listed>, t: bytes)
    ensures Resolve(r, listing) == Some(t) <==> exists k: nat :: Requested(r, listing, k) && t == WrittenName(listing[k])
  {
    hide FoldIs, NameMatches, TargetOf, MayReceive, WrittenName, HasAttribute, OnlyNamed, OnlyHolder, NamedTarget, AttributeTarget;
    forall k: nat | k < |listing| ensures TargetOf(listing[k]) == Some(t) <==> MayReceive(listing[k]) && t == WrittenName(listing[k]) {
      TargetOfIff(listing[k], t);
    }
    if r.Exactly? {
      NamedTargetIff(listing, r.destination, t);
      if k :| 0 <= k < |listing| && OnlyNamed(listing, r.destination, k) && TargetOf(listing[k]) == Some(t) {
        assert Requested(r, listing, k);
      }
    } else {
      AttributeTargetIff(listing, r.attribute, t);
      forall k: nat | k < |listing| ensures NameMatches(r.source, WrittenName(listing[k])) <==> NameMatches(r.source, listing[k].name) {
        WrittenMatches(r.source, listing[k]);
      }
      forall k: nat | Requested(r, listing, k) && t == WrittenName(listing[k]) ensures HolderTarget(listing, r.attribute, k) == Some(t) {
        assert TargetOf(listing[k]) == Some(t);
      }
      if k :| 0 <= k < |listing| && HolderTarget(listing, r.attribute, k) == Some(t) && !NameMatches(r.source, t) {
        assert Requested(r, listing, k);
      }
    }
  }

  /** A request means at most one listed mailbox. */
  lemma RequestedOnce(r: Resolver, listing: seq<Listed>, j: nat, k: nat)
    requires Requested(r, listing, j) && Requested(r, listing, k)
    ensures j == k
  {
    hide MayReceive, NameMatches, HasAttribute;
  }

  lemma SelfMatches(name: bytes)
    ensures NameMatches(name, name)
  {
  }

  lemma InboxFolds()
    ensures FoldIs(INBOX, INBOX)
  {
    FoldsToItself(INBOX);
  }

  /** No target lies under Labels/, and none is the source of the request. */
  lemma TargetIsSafe(r: Resolver, listing: seq<Listed>, source: bytes, t: bytes)
    requires Resolve(r, listing) == Some(t)
    requires r.Exactly? ==> !NameMatches(source, r.destination)
    requires r.ByAttribute? ==> r.source == source
    ensures !NameMatches(source, t) && !HasPrefix(t, LABELS)
  {
    hide FoldIs, HasAttribute, Sole, ContainsText;
    if r.Exactly? {
      NamedTargetIff(listing, r.destination, t);
      var k :| 0 <= k < |listing| && OnlyNamed(listing, r.destination, k) && TargetOf(listing[k]) == Some(t);
      InboxFolds();
      NotLabels(listing[k], t);
    } else {
      AttributeTargetIff(listing, r.attribute, t);
      var k :| 0 <= k < |listing| && HolderTarget(listing, r.attribute, k) == Some(t);
      NotLabels(listing[k], t);
    }
  }

  lemma NotLabels(m: Listed, t: bytes)
    requires TargetOf(m) == Some(t)
    ensures !HasPrefix(t, LABELS)
  {
    hide FoldIs, HasAttribute, ContainsText;
    assert LABELS[6] == SLASH && FOLDERS[0] != LABELS[0] && INBOX[0] != LABELS[0];
    if |t| > 6 {
      assert HasPrefix(t, LABELS) ==> t[6] == LABELS[6] && t[0] == LABELS[0];
      assert HasPrefix(t, FOLDERS) ==> t[0] == FOLDERS[0];
    }
  }

  /** The attribute's only holder is listed with an empty name, once, carries a
      system attribute and no refused one. */
  ghost predicate HeldByNoName(listing: seq<Listed>, r: Resolver) {
    && r.ByAttribute? && !NameMatches(r.source, [])
    && exists k :: 0 <= k < |listing| && OnlyHolder(listing, r.attribute, k) && listing[k].name == []
                   && OnlyNamed(listing, [], k) && SystemMailbox(listing[k]) && !RefusedMailbox(listing[k])
                   && HierarchyRoot(listing[k])
  }

  /** The empty name, which the batch reads as no target at all, is resolved
      exactly for such a listing. */
  lemma EmptyTargetIff(listing: seq<Listed>, r: Resolver)
    requires r.Exactly? ==> r.destination != []
    ensures Resolve(r, listing) == Some([]) <==> HeldByNoName(listing, r)
  {
    hide HasAttribute, Sole, AggregateView, HierarchyRoot, FoldIs, SystemMailbox, RefusedMailbox;
    EmptyNames();
    if r.Exactly? {
      NamedTargetIff(listing, r.destination, []);
    } else {
      AttributeTargetIff(listing, r.attribute, []);
      forall k | 0 <= k < |listing|
        ensures HolderTarget(listing, r.attribute, k) == Some([]) <==>
                  OnlyHolder(listing, r.attribute, k) && listing[k].name == [] && OnlyNamed(listing, [], k)
                  && SystemMailbox(listing[k]) && !RefusedMailbox(listing[k]) && HierarchyRoot(listing[k])
      {
        NotUserFolder(listing[k]);
      }
    }
  }

  lemma NotUserFolder(m: Listed)
    ensures TargetOf(m) == Some([]) <==> m.name == [] && SystemMailbox(m) && !RefusedMailbox(m) && HierarchyRoot(m)
  {
    hide HasAttribute, SystemMailbox, RefusedMailbox, HierarchyRoot, FoldIs;
    EmptyNames();
  }

  /** One such listing: a single mailbox without a name that carries \Archive. */
  lemma EmptyTargetExample()
    ensures Resolve(ByAttribute(ARCHIVE, [0x41]), [Listed([], [SLASH], [ARCHIVE])]) == Some([])
  {
    hide FoldIs, HasAttribute, SystemMailbox, RefusedMailbox, AggregateView, Resolve;
    var m := Listed([], [SLASH], [ARCHIVE]);
    var listing, r := [m], ByAttribute(ARCHIVE, [0x41]);
    ArchiveHeld(m);
    EmptyNames();
    assert OnlyHolder(listing, ARCHIVE, 0) && OnlyNamed(listing, [], 0) && listing[0] == m;
    EmptyTargetIff(listing, r);
  }

  lemma ArchiveHeld(m: Listed)
    requires m.attributes == [ARCHIVE]
    ensures SystemMailbox(m) && HasAttribute(m.attributes, [ARCHIVE]) && !RefusedMailbox(m)
  {
    hide FoldIs;
    ArchiveOnly();
    assert m.attributes[0] == ARCHIVE && [SENT, DRAFTS, JUNK, ARCHIVE, TRASH][3] == ARCHIVE && [ARCHIVE][0] == ARCHIVE;
  }

  lemma ArchiveOnly()
    ensures FoldIs(ARCHIVE, ARCHIVE) && !FoldIs(ARCHIVE, NOSELECT) && !FoldIs(ARCHIVE, NONEXISTENT)
    ensures !FoldIs(ARCHIVE, ALL_VIEW) && !FoldIs(ARCHIVE, FLAGGED)
  {
    FoldsToItself(ARCHIVE);
    OtherWord(NOSELECT);
    OtherWord(NONEXISTENT);
    OtherWord(FLAGGED);
    assert ARCHIVE[1..][1..][0] == 0x52 && ALL_VIEW[1..][1..][0] == 0x4c;
  }

  lemma OtherWord(word: bytes)
    requires |word| > 1 && word[0] == BACKSLASH && IsLetter(word[1]) && word[1] != ARCHIVE[1]
    ensures !FoldIs(ARCHIVE, word)
  {
    assert ARCHIVE[1..][0] == 0x41 && word[1..][0] == word[1];
  }

  predicate IsLetter(b: byte) {
    0x41 <= b <= 0x5a
  }

  lemma EmptyNames()
    ensures !FoldIs([], INBOX) && !AggregateView([]) && forall name :: NameMatches(name, []) <==> name == []
  {
    EmptyFolds([]);
    assert forall name: bytes :: FoldIs(name, INBOX) ==> name != [];
  }

  lemma EmptyFolds(name: bytes)
    ensures name == [] ==> !FoldIs(name, INBOX)
  {
  }

  // ---- The two searches ----

  /** Finds the one mailbox of that name, giving up at a second. */
  method ResolveMoveDestination(listing: seq<Listed>, destination: bytes) returns (target: Option<bytes>)
    ensures target == NamedTarget(listing, destination)
  {
    hide NameMatches, TargetOf;
    var found: Option<nat> := None;
    for index := 0 to |listing|
      invariant found.Some? ==> found.value < index && NameMatches(destination, listing[found.value].name)
      invariant forall j :: 0 <= j < index && found != Some(j) ==> !NameMatches(destination, listing[j].name)
    {
      if NameMatches(destination, listing[index].name) {
        if found.Some? {
          NotSole(NamedMarks(listing, destination), found.value, index);
          return None;
        }
        found := Some(index);
      }
    }
    if found.None? {
      NoneSole(NamedMarks(listing, destination));
      return None;
    }
    SoleIff(NamedMarks(listing, destination), found.value);
    target := TargetOf(listing[found.value]);
  }

  /** Finds the one holder of the attribute, giving up at a second. */
  method ResolveAttributeDestination(listing: seq<Listed>, attribute: bytes) returns (target: Option<bytes>)
    ensures target == AttributeTarget(listing, attribute)
  {
    hide HasAttribute, AggregateView, NamedTarget;
    var holder: Option<nat> := None;
    for index := 0 to |listing|
      invariant holder.Some? ==> holder.value < index && HasAttribute(listing[holder.value].attributes, [attribute])
      invariant forall j :: 0 <= j < index && holder != Some(j) ==> !HasAttribute(listing[j].attributes, [attribute])
    {
      if HasAttribute(listing[index].attributes, [attribute]) {
        if holder.Some? {
          NotSole(AttributeMarks(listing, attribute), holder.value, index);
          return None;
        }
        holder := Some(index);
      }
    }
    if holder.None? {
      NoneSole(AttributeMarks(listing, attribute));
      return None;
    }
    SoleIff(AttributeMarks(listing, attribute), holder.value);
    if AggregateView(listing[holder.value].name) {
      return None;
    }
    target := ResolveMoveDestination(listing, listing[holder.value].name);
  }

  lemma NotSole(marks: seq<bool>, i: nat, j: nat)
    requires i < j < |marks| && marks[i] && marks[j]
    ensures Sole(marks).None?
  {
    if Sole(marks).Some? {
      SoleIff(marks, Sole(marks).value);
    }
  }

  lemma NoneSole(marks: seq<bool>)
    requires forall i :: 0 <= i < |marks| ==> !marks[i]
    ensures Sole(marks).None?
  {
    if Sole(marks).Some? {
      SoleIff(marks, Sole(marks).value);
    }
  }
}
