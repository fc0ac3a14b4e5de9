/** Which mailbox generation a request writes to: said of the two attempts to
    select its source, before any command (bridge/seen.go:60-129,
    bridge/bridge.go:120-207). */
module TriageGenerations {
  import opened Sequences
  import opened Wrappers
  import opened MailStore
  import opened MailServer
  import opened MoveDestination
  import opened TriageProtocol
  import opened TriageArrival
  import opened TriageSeen
  import opened TriageRequests

  // ---- The two attempts ----

  /** The session the first attempt selects on: the retained one, or a new one. */
  ghost predicate FirstSession(c: Client, t: Try, session: nat) {
    !c.closed && (c.session == Some(session) || (c.session.None? && t.factory.None? && session == c.next))
  }

  /** The first attempt met a dead connection in time for a second. */
  ghost predicate FirstDied(c: Client, t: Try) {
    && !c.closed && !t.expired
    && if c.session.None? && t.factory.Some? then t.factory == Some(BridgeUnreachable)
       else t.writer && t.select == SelectFails(BridgeUnreachable)
  }

  /** The second attempt has a session of its own, never used before. */
  ghost predicate SecondSession(c: Client, first: Try, t: Try, session: nat) {
    && FirstDied(c, first) && t.factory.None?
    && session == if c.session.None? && first.factory.None? then c.next + 1 else c.next
  }

  /** The last selection of a request was made on this session and reported this
      UIDVALIDITY. */
  ghost predicate Reported(c: Client, first: Try, second: Try, session: nat, uidValidity: nat) {
    || (FirstSession(c, first, session) && first.writer && first.select == Selected(uidValidity))
    || (SecondSession(c, first, second, session) && second.writer && second.select == Selected(uidValidity))
  }

  /** The source is opened exactly on the session whose last selection reported
      the generation asked for, and refused as stale when it reported another. */
  lemma OpenedIff(c: Client, first: Try, second: Try, uidValidity: nat)
    ensures var o := OpenSource(c, first, second, uidValidity).1;
            && (forall session: nat :: o == Opened(session) <==> Reported(c, first, second, session, uidValidity))
            && (forall session: nat, found: nat ::
                  Reported(c, first, second, session, found) && found != uidValidity ==> o == OpenFails(StaleMessageId))
  {
  }

  /** An opening that fails in a way that leaves the connection in doubt keeps no
      session; one that only found another generation keeps the one it used. */
  lemma FailedOpening(c: Client, first: Try, second: Try, uidValidity: nat)
    ensures var (d, o) := OpenSource(c, first, second, uidValidity);
            && (o.OpenFails? && o.code in {BridgeUnreachable, CommandTimedOut, OperationCanceled, BoundsExceeded, ImapProtocol} ==> d.session.None?)
            && (forall session: nat, found: nat :: Reported(c, first, second, session, found) ==> d.session == Some(session))
  {
  }

  // ---- Whole requests ----

  /** The request passes its own checks, so it looks for its source. */
  ghost predicate Begins(r: Request, e: Surroundings) {
    !r.Closing? && Refusal(r).None? && !(r.Moving? && SelfMove(r)) && e.acquired.None?
  }

  /** A triage request is well formed: a mailbox name and up to fifty distinct
      nonzero UIDs of a generation, and for a move to a name one exact printable
      name. */
  ghost predicate WellFormed(r: Request)
    requires !r.Closing?
  {
    && 1 <= |r.mailbox| <= 512 && r.uidValidity != 0 && 1 <= |r.uids| <= 50 && 0 !in r.uids && Distinct(r.uids)
    && (r.Moving? && r.goal.To? ==> 1 <= |r.goal.destination| <= 512 && r.goal.utf8 && r.goal.plain)
  }

  /** Exactly the well formed requests are let through; the others name no
      command. */
  lemma RefusalIff(r: Request)
    requires !r.Closing?
    ensures Refusal(r).None? <==> WellFormed(r)
    ensures Refusal(r).Some? ==> Refusal(r).value in {InvalidRequest, BoundsExceeded}
  {
    RepeatsIff(r.uids);
  }

  lemma {:induction false} MoveLogSession(c: Client, m: Mover, uids: seq<nat>, turns: seq<Turn>, store: Store, written: bool)
    requires |turns| == |uids|
    ensures forall x :: x in MoveBatch(c, m, uids, turns, store, written).log ==> x.session == m.session
    decreases |uids|
  {
    hide MoveUid;
    if uids != [] {
      var t := MoveUid(c, m, uids[0], turns[0]);
      TurnSession(c, m, uids[0], turns[0]);
      MoveLogSession(t.client, m, uids[1..], turns[1..], t.store, written || t.result.outcome == Applied);
    }
  }

  lemma TurnSession(c: Client, m: Mover, uid: nat, turn: Turn)
    ensures forall x :: x in MoveUid(c, m, uid, turn).log ==> x.session == m.session
  {
    hide MoveCommand, DispatchGuard.WriteAll, Resolve;
  }

  lemma {:induction false} SeenLogSession(c: Client, m: Seer, uids: seq<nat>, turns: seq<Turn>, store: Store)
    requires |turns| == |uids|
    ensures forall x :: x in SeenBatch(c, m, uids, turns, store).log ==> x.session == m.session
    decreases |uids|
  {
    hide StoreCommand;
    if uids != [] {
      var t := StoreSeen(c, m, uids[0], turns[0]);
      SeenLogSession(t.client, m, uids[1..], turns[1..], t.store);
    }
  }

  /** A request whose last selection reported another generation fails as stale
      with nothing written and the mailboxes as they were. Every command of any
      request was written on the session whose last selection reported exactly
      the generation asked for. */
  lemma GenerationIsChecked(c: Client, enabled: bool, r: Request, e: Surroundings, store: Store)
    requires !r.Closing? && |e.turns| == |r.uids|
    ensures var b := Handle(c, enabled, r, e, store);
            && (forall x :: x in b.log ==> Begins(r, e) && Reported(c, e.first, e.second, x.session, r.uidValidity))
            && (forall session: nat, found: nat ::
                  Reported(c, e.first, e.second, session, found) && found != r.uidValidity ==>
                    b.log == [] && b.store == store && (Begins(r, e) ==> b.error == Some(StaleMessageId) && b.results == []))
  {
    hide MoveBatch, SeenBatch, OpenSource, Refusal, SelfMove, Reported;
    OpenedIff(c, e.first, e.second, r.uidValidity);
    var opening := OpenSource(c, e.first, e.second, r.uidValidity).1;
    if Begins(r, e) && opening.Opened? {
      var d := OpenSource(c, e.first, e.second, r.uidValidity).0;
      if r.Marking? {
        SeenLogSession(d, Seer(opening.session, Selection(r.mailbox, false), r.seen), r.uids, e.turns, store);
      } else {
        MoveLogSession(d, Mover(opening.session, enabled, Selection(r.mailbox, false), ResolverOf(r)), r.uids, e.turns, store, false);
      }
    }
  }

  ghost predicate AllApplied(b: Batch, uids: seq<nat>) {
    b.error.None? && |b.results| == |uids| && forall i: nat :: i < |uids| ==> b.results[i] == TriageResult(uids[i], Applied, None)
  }

  /** A well formed move whose source reports its generation, on a server with
      MOVE, applies to every UID when every turn completes. */
  lemma MoveRequestApplies(c: Client, enabled: bool, r: Request, e: Surroundings, store: Store, session: nat)
    requires r.Moving? && |e.turns| == |r.uids| && Begins(r, e) && Reported(c, e.first, e.second, session, r.uidValidity)
    requires e.mover && e.supports
    requires EveryTurnCompletes(Mover(session, enabled, Selection(r.mailbox, false), ResolverOf(r)), r.uids, e.turns)
    ensures AllApplied(Handle(c, enabled, r, e, store), r.uids)
  {
    hide MoveBatch, SeenBatch, OpenSource, Refusal, SelfMove, Reported, EveryTurnCompletes, ResolverOf;
    OpenedIff(c, e.first, e.second, r.uidValidity);
    var d := OpenSource(c, e.first, e.second, r.uidValidity).0;
    var m := Mover(session, enabled, Selection(r.mailbox, false), ResolverOf(r));
    EveryTurnApplies(d, m, r.uids, e.turns, store, false);
  }

  /** So does a well formed flag change. */
  lemma SeenRequestApplies(c: Client, enabled: bool, r: Request, e: Surroundings, store: Store, session: nat)
    requires r.Marking? && |e.turns| == |r.uids| && Begins(r, e) && Reported(c, e.first, e.second, session, r.uidValidity)
    requires forall i: nat :: i < |r.uids| ==>
               && e.turns[i].probe.Found? && e.turns[i].attempt.writes != [] && e.turns[i].attempt.answered
               && Changes(Seer(session, Selection(r.mailbox, false), r.seen), e.turns[i].arrival)
               && e.turns[i].attempt.failure != ImapCommand
    ensures AllApplied(Handle(c, enabled, r, e, store), r.uids)
  {
    hide MoveBatch, SeenBatch, OpenSource, Refusal, SelfMove, Reported, Changes, StoreSeen;
    OpenedIff(c, e.first, e.second, r.uidValidity);
    var d := OpenSource(c, e.first, e.second, r.uidValidity).0;
    var m := Seer(session, Selection(r.mailbox, false), r.seen);
    var k := SeenReports(d, m, r.uids, e.turns, store);
    forall i: nat | i < |r.uids|
      ensures SeenAt(m, r.uids, e.turns, i) == TriageResult(r.uids[i], Applied, None) && !SeenStopsAt(m, r.uids, e.turns, i)
    {
      SeenOutcomeIs(Client(None, 0, false, {}), m, r.uids[i], e.turns[i]);
    }
  }

  ghost predicate AllUnsupported(b: Batch, uids: seq<nat>) {
    b.error.None? && |b.results| == |uids| && forall i: nat :: i < |uids| ==> b.results[i] == TriageResult(uids[i], Refused, Some(Unsupported))
  }

  /** A well formed move onto its own source, or on a server without MOVE, is
      refused for every UID, and no command is sent. */
  lemma MoveIsUnsupported(c: Client, enabled: bool, r: Request, e: Surroundings, store: Store, session: nat)
    requires r.Moving? && |e.turns| == |r.uids| && WellFormed(r)
    requires || (r.goal.To? && NameMatches(r.mailbox, r.goal.destination))
             || (e.acquired.None? && Reported(c, e.first, e.second, session, r.uidValidity) && e.mover && !e.supports)
    ensures var b := Handle(c, enabled, r, e, store); b.log == [] && b.store == store && AllUnsupported(b, r.uids)
  {
    hide MoveBatch, SeenBatch, OpenSource, Refusal, Reported, WellFormed, NameMatches;
    RefusalIff(r);
    OpenedIff(c, e.first, e.second, r.uidValidity);
  }
}
