/** What each turn of a batch of flag changes comes to, and what the batch
    reports of its turns (bridge/seen.go:30-164). */
module TriageSeen {
  import opened Wrappers
  import opened MailStore
  import opened MailServer
  import opened MoveEffect
  import opened TriageProtocol

  /** The server carries the flag change out: the mailbox selected for writing is
      still there. */
  ghost predicate Changes(m: Seer, arrival: Store) {
    m.at.selected != [] && !m.at.readOnly && exists k :: 0 <= k < |arrival| && NameMatches(arrival[k].name, m.at.selected)
  }

  /** A flag change is reported applied exactly when its UID was found, the
      command was written, and the server carried it out and said so. Otherwise
      a missing UID and a tagged refusal are definite, and a command that may
      have been written is unknown. */
  lemma SeenOutcomeIs(c: Client, m: Seer, uid: nat, turn: Turn)
    requires turn.attempt.failure != ImapCommand
    ensures var t := StoreSeen(c, m, uid, turn);
            var r, a := t.result, turn.attempt;
            && (r.outcome == Applied <==> turn.probe.Found? && a.writes != [] && a.answered && Changes(m, turn.arrival))
            && (r.outcome == Applied ==> r == TriageResult(uid, Applied, None))
            && (r.outcome == NotAttempted <==> turn.probe.ProbeFails?)
            && (turn.probe.ProbeFails? ==> r == TriageResult(uid, NotAttempted, Some(turn.probe.code)))
            && (turn.probe.Missing? ==> r == TriageResult(uid, Refused, Some(MessageNotFound)))
            && (turn.probe.Found? ==>
                  (r == TriageResult(uid, Refused, Some(ImapCommand))
                   <==> a.writes != [] && a.answered && !Changes(m, turn.arrival) && !a.expired)
                  && (r.outcome == Unknown
                      <==> a.writes == [] || !a.answered || (!Changes(m, turn.arrival) && a.expired))
                  && (r.outcome == Unknown ==> r.code == Some(a.failure)))
            && (t.stop <==> r.outcome in {Unknown, NotAttempted})
  {
    hide StoreCommand, NameMatches, StoreAfter;
    StoreOkIff(turn.arrival, m.at, One(uid), m.seen);
  }

  // ---- The batch ----

  function SeenAt(m: Seer, uids: seq<nat>, turns: seq<Turn>, i: nat): TriageResult
    requires i < |uids| == |turns|
  {
    StoreSeen(Client(None, 0, false, {}), m, uids[i], turns[i]).result
  }

  ghost predicate SeenStopsAt(m: Seer, uids: seq<nat>, turns: seq<Turn>, i: nat)
    requires i < |uids| == |turns|
  {
    StoreSeen(Client(None, 0, false, {}), m, uids[i], turns[i]).stop
  }

  /** The turns up to k are taken, and every later UID is left. */
  ghost predicate SeenReportsAt(m: Seer, uids: seq<nat>, turns: seq<Turn>, k: nat, b: Batch)
    requires |turns| == |uids|
  {
    && k <= |uids| && (forall i: nat :: i < k ==> !SeenStopsAt(m, uids, turns, i)) && (k < |uids| ==> SeenStopsAt(m, uids, turns, k))
    && b.error.None? && |b.results| == |uids|
    && forall i: nat :: i < |uids| ==> b.results[i] == if i <= k then SeenAt(m, uids, turns, i) else TriageResult(uids[i], NotAttempted, None)
  }

  lemma AnySeer(c: Client, d: Client, m: Seer, uid: nat, turn: Turn)
    ensures var t, u := StoreSeen(c, m, uid, turn), StoreSeen(d, m, uid, turn);
            t.result == u.result && t.stop == u.stop && t.log == u.log && t.store == u.store
  {
    hide DispatchStore, StoreAfter;
  }

  lemma SeenShifted(m: Seer, uids: seq<nat>, turns: seq<Turn>)
    requires |turns| == |uids| && uids != []
    ensures forall i: nat :: 0 < i < |uids| ==>
              && SeenAt(m, uids, turns, i) == SeenAt(m, uids[1..], turns[1..], i - 1)
              && SeenStopsAt(m, uids, turns, i) == SeenStopsAt(m, uids[1..], turns[1..], i - 1)
  {
    hide StoreSeen;
  }

  lemma SeenLater(m: Seer, uids: seq<nat>, turns: seq<Turn>, j: nat, b: Batch, full: Batch)
    requires |turns| == |uids| && uids != [] && !SeenStopsAt(m, uids, turns, 0)
    requires SeenReportsAt(m, uids[1..], turns[1..], j, b)
    requires full.error == b.error && full.results == [SeenAt(m, uids, turns, 0)] + b.results
    ensures SeenReportsAt(m, uids, turns, j + 1, full)
  {
    hide SeenAt, SeenStopsAt;
    SeenShifted(m, uids, turns);
  }

  /** The batch takes its turns in order up to the first whose outcome is
      uncertain or that could not begin, and reports each as it ended. */
  lemma {:induction false} SeenReports(c: Client, m: Seer, uids: seq<nat>, turns: seq<Turn>, store: Store) returns (k: nat)
    requires |turns| == |uids|
    ensures SeenReportsAt(m, uids, turns, k, SeenBatch(c, m, uids, turns, store))
    decreases |uids|
  {
    hide StoreSeen;
    if uids == [] {
      k := 0;
    } else {
      var t := StoreSeen(c, m, uids[0], turns[0]);
      AnySeer(c, Client(None, 0, false, {}), m, uids[0], turns[0]);
      if t.stop {
        k := 0;
      } else {
        var j := SeenReports(t.client, m, uids[1..], turns[1..], t.store);
        k := j + 1;
        SeenLater(m, uids, turns, j, SeenBatch(t.client, m, uids[1..], turns[1..], t.store), SeenBatch(c, m, uids, turns, store));
      }
    }
  }
}
