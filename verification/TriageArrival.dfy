/** What each turn of a batch comes to, by conditions on the listing, on what is
    written and on the mailboxes, and where an applied message then is
    (bridge/move.go:91-242, bridge/seen.go:131-164). */
module TriageArrival {
  import opened Octets
  import opened Wrappers
  import opened MailStore
  import opened MailServer
  import opened MoveEffect
  import opened MoveDestination
  import opened DispatchGuard
  import opened TriageProtocol
  import opened TriageSafety

  // ---- One move ----

  /** The client library wrote one thing, the MOVE line of this UID. */
  ghost predicate Sends(uid: nat, a: Attempt) {
    a.advertised && |a.writes| == 1 && exists tag, mailbox :: IsMoveLine(a.writes[0], Prefix(uid), tag, mailbox)
  }

  /** The dispatch was refused before anything was written: MOVE was no longer
      advertised, or the first write was no MOVE line of this UID. */
  ghost predicate Withheld(uid: nat, a: Attempt) {
    !a.advertised || (a.writes != [] && !exists tag, mailbox :: IsMoveLine(a.writes[0], Prefix(uid), tag, mailbox))
  }

  /** The server carries the move to the mailbox of this name out. */
  ghost predicate Serves(m: Mover, uid: nat, arrival: Store, name: bytes) {
    m.enabled && m.at.selected != [] && !m.at.readOnly && exists i: nat, d: nat :: Movable(arrival, m.at, One(uid), name, i, d)
  }

  /** The turn reaches its dispatch, to the k-th listed mailbox. */
  ghost predicate Aims(m: Mover, turn: Turn, k: nat) {
    && turn.probe.Found? && turn.lookup.Lists? && k < |turn.lookup.listing| && turn.lookup.listing[k].name != []
    && Requested(m.resolver, turn.lookup.listing, k)
  }

  ghost predicate AimsNowhere(m: Mover, turn: Turn) {
    turn.probe.Found? && turn.lookup.Lists? && forall k: nat :: !Requested(m.resolver, turn.lookup.listing, k)
  }

  lemma WrittenEmpty(m: Listed)
    ensures WrittenName(m) == [] <==> m.name == []
  {
    EmptyFolds(m.name);
  }

  /** Where a turn is aimed is what its resolver finds. */
  lemma AimIs(m: Mover, turn: Turn)
    requires turn.probe.Found? && turn.lookup.Lists?
    ensures var target := Resolve(m.resolver, turn.lookup.listing);
            && (target.None? <==> AimsNowhere(m, turn))
            && forall t :: target == Some(t) && t != [] <==> exists k: nat :: Aims(m, turn, k) && t == WrittenName(turn.lookup.listing[k])
  {
    hide Resolve, Requested, WrittenName;
    var listing := turn.lookup.listing;
    forall t
      ensures Resolve(m.resolver, listing) == Some(t) <==>
                exists k: nat :: k < |listing| && Requested(m.resolver, listing, k) && t == WrittenName(listing[k])
    {
      forall k: nat | Requested(m.resolver, listing, k) ensures k < |listing| {
        RequestedListed(m.resolver, listing, k);
      }
      ResolveIff(m.resolver, listing, t);
    }
    forall k: nat | Requested(m.resolver, listing, k) ensures k < |listing| && (WrittenName(listing[k]) == [] <==> listing[k].name == []) {
      RequestedListed(m.resolver, listing, k);
      WrittenEmpty(listing[k]);
    }
    if k: nat :| Requested(m.resolver, listing, k) {
      assert Resolve(m.resolver, listing) == Some(WrittenName(listing[k]));
    }
    var target := Resolve(m.resolver, listing);
    if target.Some? {
      assert exists k: nat :: k < |listing| && Requested(m.resolver, listing, k) && target.value == WrittenName(listing[k]);
    }
  }

  lemma RequestedListed(r: Resolver, listing: seq<Listed>, k: nat)
    requires Requested(r, listing, k)
    ensures k < |listing|
  {
    hide MayReceive, OnlyNamed, OnlyHolder;
  }

  lemma LineIs(uid: nat, a: Attempt)
    ensures var (guard, sent) := WriteAll(Armed(uid), a.writes);
            && (a.advertised && sent != [] && !guard.tripped <==> Sends(uid, a))
            && (OneLine(uid, a) ==> (!a.advertised || guard.tripped <==> Withheld(uid, a)))
  {
    hide NativeMoveLine, Prefix, WriteAll, IsMoveLine;
    ArmedForwardsOneMove(uid, a.writes);
    PrefixPlain(uid);
    if a.writes != [] {
      NativeLineIff(a.writes[0], Prefix(uid));
    }
  }

  /** How a dispatch to this target ends. */
  lemma DispatchEnds(m: Mover, uid: nat, target: bytes, turn: Turn)
    requires ValidStore(turn.arrival) && OneLine(uid, turn.attempt)
    ensures var (log, error) := DispatchMove(m, uid, target, turn);
            var a := turn.attempt;
            && (error.None? <==> Sends(uid, a) && a.answered && Serves(m, uid, turn.arrival, target))
            && (Withheld(uid, a) ==> log == [] && error == Some(if a.expired then a.failure else Unsupported))
            && (Sends(uid, a) && a.answered && !Serves(m, uid, turn.arrival, target) ==>
                  error == Some(if a.expired then a.failure else ImapCommand))
            && (Sends(uid, a) && !a.answered ==> error == Some(a.failure))
            && (!Withheld(uid, a) && !Sends(uid, a) ==> log == [] && error == Some(a.failure))
            && (log != [] <==> Sends(uid, a))
            && (Sends(uid, a) ==>
                  log == [Entry(m.session, uid, turn.arrival,
                                if a.answered || a.applied then MoveCommand(turn.arrival, m.enabled, m.at, One(uid), target).0 else turn.arrival)])
  {
    hide WriteAll, MoveCommand, Sends, Withheld, ValidStore, Movable, OneLine;
    LineIs(uid, turn.attempt);
    GuardSends(uid, turn.attempt);
    MoveOkIff(turn.arrival, m.enabled, m.at, One(uid), target);
  }

  /** Under one line, a write is sent exactly when it is the line. */
  lemma GuardSends(uid: nat, a: Attempt)
    requires OneLine(uid, a)
    ensures var (guard, sent) := WriteAll(Armed(uid), a.writes);
            guard.tripped ==> sent == []
    ensures !(Sends(uid, a) && Withheld(uid, a))
  {
    hide NativeMoveLine, Prefix, WriteAll, IsMoveLine;
    TripMeansNothingSentIff(uid, a.writes);
  }

  /** What the turn's mailbox is called to the server. */
  function NameAt(turn: Turn, k: nat): bytes
    requires turn.lookup.Lists? && k < |turn.lookup.listing|
  {
    WrittenName(turn.lookup.listing[k])
  }

  /** The command of a turn that is aimed at the k-th listed mailbox reached the
      server and was carried out, and the client read so. */
  ghost predicate Completes(m: Mover, uid: nat, turn: Turn, k: nat) {
    && Aims(m, turn, k) && Sends(uid, turn.attempt) && turn.attempt.answered
    && Serves(m, uid, turn.arrival, NameAt(turn, k))
  }

  lemma AimedUid(c: Client, m: Mover, uid: nat, turn: Turn, k: nat)
    requires Aims(m, turn, k)
    ensures k < |turn.lookup.listing|
    ensures var (log, error) := DispatchMove(m, uid, NameAt(turn, k), turn);
            var (client, result, stop) := Conclude(c, m.session, uid, error);
            MoveUid(c, m, uid, turn) == Turned(client, StoreAfter(log, turn.arrival), log, result, stop)
  {
    hide Resolve, DispatchMove, Requested, Conclude, StoreAfter;
    RequestedListed(m.resolver, turn.lookup.listing, k);
    AimIs(m, turn);
    assert Resolve(m.resolver, turn.lookup.listing) == Some(NameAt(turn, k));
  }

  /** A move is reported applied exactly when its UID was found, the listing
      holds one mailbox that the request means, the one line was written, and
      the server carried it out and said so. */
  lemma AppliedIff(c: Client, m: Mover, uid: nat, turn: Turn)
    requires ValidStore(turn.arrival) && OneLine(uid, turn.attempt)
    ensures MoveUid(c, m, uid, turn).result.outcome == Applied <==> exists k: nat :: Completes(m, uid, turn, k)
  {
    hide Resolve, DispatchMove, Requested, Sends, Serves, ValidStore, Aims, StoreAfter, OneLine;
    if k: nat :| Completes(m, uid, turn, k) {
      AimedUid(c, m, uid, turn, k);
      DispatchEnds(m, uid, NameAt(turn, k), turn);
    }
    if MoveUid(c, m, uid, turn).result.outcome == Applied {
      var k := AppliedAims(c, m, uid, turn);
      AimedUid(c, m, uid, turn, k);
      DispatchEnds(m, uid, NameAt(turn, k), turn);
      assert Completes(m, uid, turn, k);
    }
  }

  lemma AppliedAims(c: Client, m: Mover, uid: nat, turn: Turn) returns (k: nat)
    requires MoveUid(c, m, uid, turn).result.outcome == Applied
    ensures Aims(m, turn, k)
  {
    hide Resolve, DispatchMove, Requested, StoreAfter, Conclude;
    AimIs(m, turn);
    var target := Resolve(m.resolver, turn.lookup.listing).value;
    k :| Aims(m, turn, k) && k < |turn.lookup.listing| && target == WrittenName(turn.lookup.listing[k]);
  }

  /** How a turn that is aimed at a mailbox ends: applied, refused because the
      line was withheld or the server said no, and otherwise unknown. */
  ghost predicate Ends(r: TriageResult, m: Mover, uid: nat, turn: Turn, k: nat) {
    var a := turn.attempt;
    if Completes(m, uid, turn, k) then r == TriageResult(uid, Applied, None)
    else if Withheld(uid, a) && !a.expired then r == TriageResult(uid, Refused, Some(Unsupported))
    else if Sends(uid, a) && a.answered && !a.expired then r == TriageResult(uid, Refused, Some(ImapCommand))
    else r == TriageResult(uid, Unknown, Some(a.failure))
  }

  /** Every turn ends in one way: not attempted when the probe or the listing
      failed, refused when the UID is missing or no mailbox is meant, and as its
      dispatch ends when one is. */
  lemma OutcomeIs(c: Client, m: Mover, uid: nat, turn: Turn)
    requires ValidStore(turn.arrival) && OneLine(uid, turn.attempt)
    requires turn.attempt.failure != Unsupported && turn.attempt.failure != ImapCommand
    ensures var r := MoveUid(c, m, uid, turn).result;
            && (r.outcome == NotAttempted <==> turn.probe.ProbeFails? || (turn.probe.Found? && turn.lookup.ListingFails?))
            && (r.outcome == NotAttempted ==>
                  r.code == Some(if turn.probe.ProbeFails? then turn.probe.code else turn.lookup.code))
            && (turn.probe.Missing? ==> r == TriageResult(uid, Refused, Some(MessageNotFound)))
            && (AimsNowhere(m, turn) ==> r == TriageResult(uid, Refused, Some(Unsupported)))
            && forall k: nat :: Aims(m, turn, k) ==> Ends(r, m, uid, turn, k)
  {
    hide Resolve, DispatchMove, Requested, Sends, Serves, Withheld, ValidStore, StoreAfter, OneLine;
    if turn.probe.Found? && turn.lookup.Lists? {
      AimIs(m, turn);
      forall k: nat | Aims(m, turn, k)
        ensures Ends(MoveUid(c, m, uid, turn).result, m, uid, turn, k)
      {
        AimedEnds(c, m, uid, turn, k);
      }
      ResultNotLeft(c, m, uid, turn);
    }
  }

  lemma AimedEnds(c: Client, m: Mover, uid: nat, turn: Turn, k: nat)
    requires Aims(m, turn, k) && ValidStore(turn.arrival) && OneLine(uid, turn.attempt)
    requires turn.attempt.failure != Unsupported && turn.attempt.failure != ImapCommand
    ensures Ends(MoveUid(c, m, uid, turn).result, m, uid, turn, k)
  {
    hide MoveUid, DispatchMove, Requested, Sends, Serves, Withheld, ValidStore, StoreAfter, OneLine;
    AimedUid(c, m, uid, turn, k);
    DispatchEnds(m, uid, NameAt(turn, k), turn);
    GuardSends(uid, turn.attempt);
  }

  /** A turn whose listing was read does not end unattempted. */
  lemma ResultNotLeft(c: Client, m: Mover, uid: nat, turn: Turn)
    requires turn.probe.Found? && turn.lookup.Lists?
    ensures MoveUid(c, m, uid, turn).result.outcome != NotAttempted
  {
    hide Resolve, DispatchMove, StoreAfter;
  }

  // ---- Where the message is ----

  /** The command of e moved this UID from the selected mailbox to the one listed
      mailbox that the request means, and did nothing else. */
  ghost predicate Delivered(m: Mover, uid: nat, turn: Turn, e: Entry) {
    && e.uid == uid && e.session == m.session && turn.lookup.Lists?
    && exists k: nat, i: nat, d: nat ::
         && k < |turn.lookup.listing| && Requested(m.resolver, turn.lookup.listing, k)
         && i < |e.before| && NameMatches(e.before[i].name, m.at.selected)
         && d < |e.before| && NameMatches(e.before[d].name, turn.lookup.listing[k].name)
         && Moved(e.before, e.after, i, d, One(uid))
  }

  lemma ServedArrives(m: Mover, uid: nat, turn: Turn, k: nat, e: Entry)
    requires ValidStore(turn.arrival) && Aims(m, turn, k) && Serves(m, uid, turn.arrival, NameAt(turn, k))
    requires e == Entry(m.session, uid, turn.arrival, MoveCommand(turn.arrival, m.enabled, m.at, One(uid), NameAt(turn, k)).0)
    ensures Delivered(m, uid, turn, e)
  {
    hide MoveCommand, Requested, ValidStore, NameMatches, Moved, WrittenName, Movable;
    var name := NameAt(turn, k);
    var i: nat, d: nat :| Movable(turn.arrival, m.at, One(uid), name, i, d);
    MovableNamed(turn.arrival, m.at, One(uid), name, i, d);
    MoveOkIff(turn.arrival, m.enabled, m.at, One(uid), name);
    MoveExact(turn.arrival, m.enabled, m.at, One(uid), name, i, d);
    WrittenMatches(turn.arrival[d].name, turn.lookup.listing[k]);
  }

  lemma AppliedArrives(c: Client, m: Mover, uid: nat, turn: Turn)
    requires ValidStore(turn.arrival) && OneLine(uid, turn.attempt) && MoveUid(c, m, uid, turn).result.outcome == Applied
    ensures var t := MoveUid(c, m, uid, turn);
            |t.log| == 1 && t.log[0].before == turn.arrival && t.store == t.log[0].after && Delivered(m, uid, turn, t.log[0])
  {
    hide MoveUid, DispatchMove, MoveCommand, Sends, ValidStore, OneLine, Delivered, Serves, Requested;
    AppliedIff(c, m, uid, turn);
    var k: nat :| Completes(m, uid, turn, k);
    AimedUid(c, m, uid, turn, k);
    DispatchEnds(m, uid, NameAt(turn, k), turn);
    ServedArrives(m, uid, turn, k, MoveUid(c, m, uid, turn).log[0]);
  }

  lemma MovableNamed(s: Store, at: Selection, ranges: seq<Span>, target: bytes, k: nat, d: nat)
    requires Movable(s, at, ranges, target, k, d)
    ensures k < |s| && d < |s| && NameMatches(s[k].name, at.selected) && NameMatches(s[d].name, target)
  {
  }

  // ---- The batch ----

  /** What a turn comes to does not depend on the client that takes it. */
  function ResultAt(m: Mover, uids: seq<nat>, turns: seq<Turn>, i: nat): TriageResult
    requires i < |uids| == |turns|
  {
    MoveUid(Client(None, 0, false, {}), m, uids[i], turns[i]).result
  }

  ghost predicate HaltsAt(m: Mover, uids: seq<nat>, turns: seq<Turn>, i: nat)
    requires i < |uids| == |turns|
  {
    Stops(MoveUid(Client(None, 0, false, {}), m, uids[i], turns[i]))
  }

  lemma AnyClient(c: Client, d: Client, m: Mover, uid: nat, turn: Turn)
    ensures var t, u := MoveUid(c, m, uid, turn), MoveUid(d, m, uid, turn);
            t.result == u.result && t.stop == u.stop && t.log == u.log && t.store == u.store
  {
    hide DispatchMove, Resolve;
  }

  /** The turns before k are taken and go on; the one at k, if there is one,
      is the last that is taken. */
  ghost predicate StopsAt(m: Mover, uids: seq<nat>, turns: seq<Turn>, k: nat)
    requires |turns| == |uids|
  {
    && k <= |uids| && (forall i: nat :: i < k ==> !HaltsAt(m, uids, turns, i))
    && (k < |uids| ==> HaltsAt(m, uids, turns, k))
  }

  /** The batch fails as a whole exactly when its last turn was not attempted
      and nothing was applied before it. */
  ghost predicate FailsAt(m: Mover, uids: seq<nat>, turns: seq<Turn>, written: bool, k: nat)
    requires |turns| == |uids|
  {
    && k < |uids| && ResultAt(m, uids, turns, k).outcome == NotAttempted && ResultAt(m, uids, turns, k).code != Some(Unsupported)
    && !written && forall i: nat :: i < k ==> ResultAt(m, uids, turns, i).outcome != Applied
  }

  /** What a batch that takes its turns up to k reports. */
  ghost predicate ReportsAt(m: Mover, uids: seq<nat>, turns: seq<Turn>, written: bool, k: nat, b: Batch)
    requires |turns| == |uids|
  {
    if FailsAt(m, uids, turns, written, k) then
      b.error.Some? && b.error == ResultAt(m, uids, turns, k).code && b.results == []
    else
      && b.error.None? && |b.results| == |uids|
      && forall i: nat :: i < |uids| ==> b.results[i] == Expected(m, uids, turns, k, i)
  }

  /** The result of the UID at i when the turn at k is the last that is taken. */
  function Expected(m: Mover, uids: seq<nat>, turns: seq<Turn>, k: nat, i: nat): TriageResult
    requires i < |uids| == |turns|
  {
    if i <= k then ResultAt(m, uids, turns, i)
    else if ResultAt(m, uids, turns, k).code == Some(Unsupported) then TriageResult(uids[i], Refused, Some(Unsupported))
    else TriageResult(uids[i], NotAttempted, None)
  }

  lemma Shifted(m: Mover, uids: seq<nat>, turns: seq<Turn>)
    requires |turns| == |uids| && uids != []
    ensures forall i: nat :: 0 < i < |uids| ==>
              && ResultAt(m, uids, turns, i) == ResultAt(m, uids[1..], turns[1..], i - 1)
              && HaltsAt(m, uids, turns, i) == HaltsAt(m, uids[1..], turns[1..], i - 1)
  {
    hide MoveUid;
  }

  /** The batch takes its turns in order up to the first that stops it, reports
      each as it ended and every later UID as refused or not attempted, and
      fails as a whole only when nothing can have been written. */
  lemma {:induction false} BatchReports(c: Client, m: Mover, uids: seq<nat>, turns: seq<Turn>, store: Store, written: bool)
    returns (k: nat)
    requires |turns| == |uids|
    ensures StopsAt(m, uids, turns, k)
    ensures ReportsAt(m, uids, turns, written, k, MoveBatch(c, m, uids, turns, store, written))
    decreases |uids|
  {
    hide MoveUid, ResultAt, HaltsAt;
    if uids == [] {
      k := 0;
    } else {
      var t := MoveUid(c, m, uids[0], turns[0]);
      FirstTurn(c, m, uids, turns);
      if Stops(t) {
        k := 0;
      } else {
        Shifted(m, uids, turns);
        var more := written || t.result.outcome == Applied;
        var j := BatchReports(t.client, m, uids[1..], turns[1..], t.store, more);
        k := j + 1;
        StopsLater(m, uids, turns, j);
        ReportsLater(m, uids, turns, written, j, MoveBatch(t.client, m, uids[1..], turns[1..], t.store, more),
                     MoveBatch(c, m, uids, turns, store, written));
      }
    }
  }

  lemma FirstTurn(c: Client, m: Mover, uids: seq<nat>, turns: seq<Turn>)
    requires |turns| == |uids| && uids != []
    ensures var t := MoveUid(c, m, uids[0], turns[0]);
            ResultAt(m, uids, turns, 0) == t.result && (HaltsAt(m, uids, turns, 0) <==> Stops(t))
    ensures ResultAt(m, uids, turns, 0).outcome == NotAttempted ==>
              MoveUid(c, m, uids[0], turns[0]).stop && ResultAt(m, uids, turns, 0).code.Some?
  {
    hide DispatchMove, Resolve;
    AnyClient(c, Client(None, 0, false, {}), m, uids[0], turns[0]);
  }

  lemma StopsLater(m: Mover, uids: seq<nat>, turns: seq<Turn>, j: nat)
    requires |turns| == |uids| && uids != [] && !HaltsAt(m, uids, turns, 0) && StopsAt(m, uids[1..], turns[1..], j)
    ensures StopsAt(m, uids, turns, j + 1)
  {
    hide HaltsAt;
    Shifted(m, uids, turns);
  }

  lemma ReportsLater(m: Mover, uids: seq<nat>, turns: seq<Turn>, written: bool, j: nat, b: Batch, full: Batch)
    requires |turns| == |uids| && uids != []
    requires ReportsAt(m, uids[1..], turns[1..], written || ResultAt(m, uids, turns, 0).outcome == Applied, j, b)
    requires full.error == b.error && full.results == if b.error.Some? then [] else [ResultAt(m, uids, turns, 0)] + b.results
    ensures ReportsAt(m, uids, turns, written, j + 1, full)
  {
    hide ResultAt, HaltsAt, FailsAt, Expected;
    FailsLater(m, uids, turns, written, j);
    if !FailsAt(m, uids, turns, written, j + 1) {
      forall i: nat | i < |uids| ensures full.results[i] == Expected(m, uids, turns, j + 1, i) {
        ExpectedLater(m, uids, turns, j, i);
      }
    }
  }

  lemma ExpectedLater(m: Mover, uids: seq<nat>, turns: seq<Turn>, j: nat, i: nat)
    requires i < |uids| == |turns|
    ensures Expected(m, uids, turns, j + 1, i)
            == if i == 0 then ResultAt(m, uids, turns, 0) else Expected(m, uids[1..], turns[1..], j, i - 1)
  {
    hide ResultAt, HaltsAt;
    Shifted(m, uids, turns);
  }

  lemma FailsLater(m: Mover, uids: seq<nat>, turns: seq<Turn>, written: bool, j: nat)
    requires |turns| == |uids| && uids != []
    ensures FailsAt(m, uids, turns, written, j + 1)
            <==> FailsAt(m, uids[1..], turns[1..], written || ResultAt(m, uids, turns, 0).outcome == Applied, j)
    ensures FailsAt(m, uids, turns, written, j + 1) ==>
              j + 1 < |uids| && ResultAt(m, uids, turns, j + 1) == ResultAt(m, uids[1..], turns[1..], j)
  {
    hide ResultAt;
    Shifted(m, uids, turns);
    if FailsAt(m, uids, turns, written, j + 1) {
      forall i: nat | i < j ensures ResultAt(m, uids[1..], turns[1..], i).outcome != Applied {
        assert ResultAt(m, uids, turns, i + 1).outcome != Applied;
      }
      assert ResultAt(m, uids, turns, 0).outcome != Applied;
    }
  }

  /** Every turn finds its UID, is aimed at a mailbox and completes there. */
  ghost predicate EveryTurnCompletes(m: Mover, uids: seq<nat>, turns: seq<Turn>)
    requires |turns| == |uids|
  {
    forall i: nat :: i < |uids| ==>
      ValidStore(turns[i].arrival) && OneLine(uids[i], turns[i].attempt) && exists k: nat :: Completes(m, uids[i], turns[i], k)
  }

  /** When every turn completes, every UID is applied. */
  lemma EveryTurnApplies(c: Client, m: Mover, uids: seq<nat>, turns: seq<Turn>, store: Store, written: bool)
    requires |turns| == |uids| && EveryTurnCompletes(m, uids, turns)
    ensures var b := MoveBatch(c, m, uids, turns, store, written);
            b.error.None? && |b.results| == |uids| && forall i: nat :: i < |uids| ==> b.results[i] == TriageResult(uids[i], Applied, None)
  {
    hide MoveUid, MoveBatch, ValidStore, OneLine, Completes;
    forall i: nat | i < |uids| ensures ResultAt(m, uids, turns, i) == TriageResult(uids[i], Applied, None) && !HaltsAt(m, uids, turns, i) {
      AppliedIff(Client(None, 0, false, {}), m, uids[i], turns[i]);
      AppliedGoesOn(Client(None, 0, false, {}), m, uids[i], turns[i]);
    }
    var k := BatchReports(c, m, uids, turns, store, written);
  }

  lemma AppliedGoesOn(c: Client, m: Mover, uid: nat, turn: Turn)
    requires MoveUid(c, m, uid, turn).result.outcome == Applied
    ensures MoveUid(c, m, uid, turn).result == TriageResult(uid, Applied, None) && !Stops(MoveUid(c, m, uid, turn))
  {
    hide DispatchMove, Resolve, StoreAfter;
  }

  ghost predicate DeliveredIn(log: seq<Entry>, m: Mover, uid: nat, turn: Turn) {
    exists e :: e in log && e.before == turn.arrival && Delivered(m, uid, turn, e)
  }

  lemma DeliveredMore(a: seq<Entry>, b: seq<Entry>, m: Mover, uid: nat, turn: Turn)
    requires DeliveredIn(a, m, uid, turn) || DeliveredIn(b, m, uid, turn)
    ensures DeliveredIn(a + b, m, uid, turn)
  {
    hide Delivered;
    assert forall e :: e in a + b <==> e in a || e in b;
  }

  ghost predicate AllDelivered(b: Batch, m: Mover, uids: seq<nat>, turns: seq<Turn>) {
    |b.results| <= |uids| == |turns|
    && forall i: nat :: i < |b.results| && b.results[i].outcome == Applied ==> DeliveredIn(b.log, m, uids[i], turns[i])
  }

  /** Every UID reported applied was moved, by a command of the batch, to the one
      listed mailbox that the request means. */
  lemma {:induction false} BatchDelivers(c: Client, m: Mover, uids: seq<nat>, turns: seq<Turn>, store: Store, written: bool)
    requires |turns| == |uids| && Plausible(c, m, uids, turns, store)
    ensures AllDelivered(MoveBatch(c, m, uids, turns, store, written), m, uids, turns)
    decreases |uids|
  {
    hide MoveUid, OneLine, ValidStore, Evolves, Delivered, Has;
    if uids != [] {
      var t := MoveUid(c, m, uids[0], turns[0]);
      if t.result.outcome == Applied {
        AppliedArrives(c, m, uids[0], turns[0]);
        assert t.log[0] in t.log && DeliveredIn(t.log, m, uids[0], turns[0]);
      }
      var full := MoveBatch(c, m, uids, turns, store, written);
      if !Stops(t) {
        var more := written || t.result.outcome == Applied;
        var b := MoveBatch(t.client, m, uids[1..], turns[1..], t.store, more);
        BatchDelivers(t.client, m, uids[1..], turns[1..], t.store, more);
        DeliveredLater(t, b, full, m, uids, turns);
      }
    }
  }

  lemma DeliveredLater(t: Turned, b: Batch, full: Batch, m: Mover, uids: seq<nat>, turns: seq<Turn>)
    requires |turns| == |uids| && uids != [] && AllDelivered(b, m, uids[1..], turns[1..])
    requires t.result.outcome == Applied ==> DeliveredIn(t.log, m, uids[0], turns[0])
    requires full.log == t.log + b.log && full.results == if b.error.Some? then [] else [t.result] + b.results
    ensures AllDelivered(full, m, uids, turns)
  {
    hide DeliveredIn;
    forall i: nat | i < |full.results| && full.results[i].outcome == Applied ensures DeliveredIn(full.log, m, uids[i], turns[i]) {
      if i > 0 {
        assert full.results[i] == b.results[i - 1];
      }
      DeliveredMore(t.log, b.log, m, uids[i], turns[i]);
    }
  }
}
