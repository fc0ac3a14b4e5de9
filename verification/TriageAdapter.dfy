/** The adapter: one retained session, changed in place by the batch loops
    (bridge/bridge.go:15-28, 120-207, bridge/move.go:91-242,
    bridge/seen.go:36-164), run against the fixture and through the guard. */
module TriageAdapter {
  import opened Octets
  import opened Sequences
  import opened Wrappers
  import opened MailStore
  import opened MailServer
  import opened MailFixture
  import opened MoveDestination
  import opened DispatchGuard
  import opened TriageProtocol
  import opened TriageRequests

  class Adapter {
    const guard: DispatchGuardConn
    const fixture: Fixture
    var session: Option<nat>
    var closed: bool
    var next: nat
    ghost var aborted: set<nat>
    ghost var log: seq<Entry>

    ghost function State(): Client
      reads this
    {
      Client(session, next, closed, aborted)
    }

    constructor (server: Fixture)
      ensures fixture == server && fresh(guard) && State() == Client(None, 0, false, {}) && log == []
    {
      guard := new DispatchGuardConn();
      fixture := server;
      session, closed, next, aborted, log := None, false, 0, {}, [];
    }

    /** Aborts the session if it is the retained one. */
    method Discard(s: nat)
      modifies this`session, this`aborted
      ensures State() == Invalidate(old(State()), s)
    {
      if session == Some(s) {
        session := None;
        aborted := aborted + {s};
      }
    }

    /** Closes the adapter; safe to call repeatedly. */
    method Close()
      modifies this`session, this`closed
      ensures State() == old(State()).(session := None, closed := true)
    {
      closed := true;
      session := None;
    }

    method SessionForOperation(factory: Option<Code>) returns (opening: Opening)
      modifies this`session, this`next
      ensures (State(), opening) == SessionFor(old(State()), factory)
    {
      if closed {
        return OpenFails(AdapterClosed);
      }
      if session.None? {
        if factory.Some? {
          return OpenFails(factory.value);
        }
        session := Some(next);
        next := next + 1;
      }
      opening := Opened(session.value);
    }

    method SelectTriageSource(t: Try) returns (used: Option<nat>, select: Selecting)
      modifies this`session, this`next
      ensures (State(), used, select) == SelectSource(old(State()), t)
    {
      var opening := SessionForOperation(t.factory);
      if opening.OpenFails? {
        return None, SelectFails(opening.code);
      }
      if !t.writer {
        return Some(opening.session), SelectFails(ImapProtocol);
      }
      return Some(opening.session), t.select;
    }

    /** Selects the source and compares its generation; a session found dead on
        the first attempt is replaced once. */
    method OpenTriageSource(first: Try, second: Try, uidValidity: nat) returns (opening: Opening)
      modifies this`session, this`next, this`aborted
      ensures (State(), opening) == OpenSource(old(State()), first, second, uidValidity)
    {
      ghost var begun := State();
      for attempt := 0 to 2
        invariant attempt == 0 ==> State() == begun
        invariant attempt == 1 ==>
                    var (d, used, select) := SelectSource(begun, first);
                    && select.SelectFails? && select.code == BridgeUnreachable && !first.expired
                    && State() == if used.Some? then Invalidate(d, used.value) else d
        invariant attempt != 2
      {
        var t := if attempt == 0 then first else second;
        var used, select := SelectTriageSource(t);
        if select.SelectFails? {
          var retry := attempt == 0 && select.code == BridgeUnreachable && !t.expired;
          if used.Some? && (retry || InvalidatesSession(select.code)) {
            Discard(used.value);
          }
          if retry {
            continue;
          }
          return OpenFails(select.code);
        }
        if select.uidValidity != uidValidity {
          return OpenFails(StaleMessageId);
        }
        return Opened(used.value);
      }
      opening := OpenFails(BridgeUnreachable);
    }

    // ---- One UID ----

    /** The client library's writes through the armed guard. */
    method WriteThrough(uid: nat, writes: seq<bytes>) returns (reached: bool, tripped: bool)
      modifies guard
      ensures var (g, sent) := WriteAll(Armed(uid), writes);
              reached == (sent != []) && tripped == g.tripped
    {
      hide NativeMoveLine, Prefix;
      guard.Arm(uid);
      reached := false;
      ghost var sent: seq<bytes> := [];
      ghost var whole := WriteAll(Armed(uid), writes);
      assert writes[0..] == writes && [] + whole.1 == whole.1;
      var i := 0;
      while i < |writes|
        invariant i <= |writes|
        invariant reached == (sent != [])
        invariant WriteAll(guard.State(), writes[i..]).0 == whole.0
        invariant sent + WriteAll(guard.State(), writes[i..]).1 == whole.1
      {
        ghost var here := guard.State();
        assert writes[i..][0] == writes[i] && writes[i..][1..] == writes[i + 1..];
        var ok := guard.Write(writes[i]);
        ghost var later := WriteAll(guard.State(), writes[i + 1..]);
        assert WriteAll(here, writes[i..]) == (later.0, (if ok then [writes[i]] else []) + later.1);
        assert sent + ((if ok then [writes[i]] else []) + later.1) == sent + (if ok then [writes[i]] else []) + later.1;
        if ok {
          reached := true;
          sent := sent + [writes[i]];
        } else {
          assert sent + [] == sent;
        }
        i := i + 1;
      }
      assert writes[i..] == [];
      assert sent + [] == sent;
      tripped := guard.Disarm();
    }

    /** One UID MOVE on the wire: other connections leave the arrival store, the
        guard lets through what it lets through, and the fixture applies the
        command unless the fault strikes first. */
    method MoveOnWire(m: Mover, uid: nat, target: bytes, turn: Turn) returns (error: Option<Code>)
      requires fixture.enabled == m.enabled
      modifies this`log, guard, fixture`mailboxes
      ensures var (sent, e) := DispatchMove(m, uid, target, turn);
              error == e && log == old(log) + sent && fixture.mailboxes == StoreAfter(sent, turn.arrival)
    {
      hide WriteAll, MoveCommand;
      var a := turn.attempt;
      fixture.mailboxes := turn.arrival;
      if !a.advertised {
        assert log + [] == log;
        return Unsent(a);
      }
      var reached, tripped := WriteThrough(uid, a.writes);
      var completion := No;
      if reached && (a.answered || a.applied) {
        var expunged, copied;
        completion, expunged, copied := fixture.StatefulMove(m.at, One(uid), target);
      }
      if reached {
        log := log + [Entry(m.session, uid, turn.arrival, fixture.mailboxes)];
      } else {
        assert log + [] == log;
      }
      if tripped {
        return Unsent(a);
      }
      if !reached || !a.answered {
        return Some(a.failure);
      }
      if completion == Ok {
        return None;
      }
      return Some(if a.expired then a.failure else ImapCommand);
    }

    /** One UID of a move. */
    method MoveOne(m: Mover, uid: nat, turn: Turn) returns (result: TriageResult, stop: bool)
      requires fixture.enabled == m.enabled
      modifies this`session, this`aborted, this`log, guard, fixture`mailboxes
      ensures var t := MoveUid(old(State()), m, uid, turn);
              && State() == t.client && result == t.result && stop == t.stop
              && log == old(log) + t.log && fixture.mailboxes == t.store
    {
      hide DispatchMove, Resolve, StoreAfter;
      fixture.mailboxes := turn.probed;
      assert log + [] == log;
      match turn.probe {
        case Missing =>
          return TriageResult(uid, Refused, Some(MessageNotFound)), false;
        case ProbeFails(code) =>
          Discard(m.session);
          return TriageResult(uid, NotAttempted, Some(code)), true;
        case Found =>
      }
      if turn.lookup.ListingFails? {
        Discard(m.session);
        return TriageResult(uid, NotAttempted, Some(turn.lookup.code)), true;
      }
      var target := Resolve(m.resolver, turn.lookup.listing);
      if target.None? {
        return TriageResult(uid, Refused, Some(Unsupported)), false;
      }
      if target.value == [] {
        return TriageResult(0, Blank, None), false;
      }
      var error := MoveOnWire(m, uid, target.value, turn);
      if error.None? {
        return TriageResult(uid, Applied, None), false;
      }
      match error.value {
        case Unsupported =>
          Discard(m.session);
          return TriageResult(uid, Refused, error), false;
        case ImapCommand =>
          return TriageResult(uid, Refused, error), false;
        case _ =>
          Discard(m.session);
          return TriageResult(uid, Unknown, error), true;
      }
    }

    /** One UID of a Seen change. */
    method StoreOne(m: Seer, uid: nat, turn: Turn) returns (result: TriageResult, stop: bool)
      modifies this`session, this`aborted, this`log, fixture`mailboxes
      ensures var t := StoreSeen(old(State()), m, uid, turn);
              && State() == t.client && result == t.result && stop == t.stop
              && log == old(log) + t.log && fixture.mailboxes == t.store
    {
      hide StoreCommand;
      fixture.mailboxes := turn.probed;
      assert log + [] == log;
      if turn.probe.Missing? {
        return TriageResult(uid, Refused, Some(MessageNotFound)), false;
      }
      if turn.probe.ProbeFails? {
        Discard(m.session);
        return TriageResult(uid, NotAttempted, Some(turn.probe.code)), true;
      }
      var a := turn.attempt;
      fixture.mailboxes := turn.arrival;
      var error := Some(a.failure);
      if a.writes != [] {
        var completion := No;
        if a.answered || a.applied {
          completion := fixture.StatefulStore(m.at, One(uid), m.seen);
        }
        log := log + [Entry(m.session, uid, turn.arrival, fixture.mailboxes)];
        if a.answered {
          error := if completion == Ok then None else Some(if a.expired then a.failure else ImapCommand);
        }
      }
      if error.None? {
        return TriageResult(uid, Applied, None), false;
      }
      if error.value == ImapCommand {
        return TriageResult(uid, Refused, error), false;
      }
      Discard(m.session);
      return TriageResult(uid, Unknown, error), true;
    }

    // ---- Batches ----

    /** Every UID pending, in input order. */
    method PendingResults(uids: seq<nat>) returns (results: array<TriageResult>)
      ensures fresh(results) && results[..] == AllAs(uids, NotAttempted, None)
    {
      results := new TriageResult[|uids|](i requires 0 <= i < |uids| => TriageResult(uids[i], NotAttempted, None));
    }

    /** Overwrites the results from an index on with the unsupported refusal. */
    method RefuseRemaining(results: array<TriageResult>, from: nat)
      requires from <= results.Length
      modifies results
      ensures results[..from] == old(results[..from])
      ensures forall i :: from <= i < results.Length ==> results[i] == TriageResult(old(results[i]).uid, Refused, Some(Unsupported))
    {
      for index := from to results.Length
        invariant forall i :: 0 <= i < from || index <= i < results.Length ==> results[i] == old(results[i])
        invariant forall i :: from <= i < index ==> results[i] == TriageResult(old(results[i]).uid, Refused, Some(Unsupported))
      {
        results[index] := TriageResult(results[index].uid, Refused, Some(Unsupported));
      }
    }

    /** The loop of a move: each UID in turn, in place, until one stops it. */
    method MoveLoop(m: Mover, uids: seq<nat>, turns: seq<Turn>) returns (results: seq<TriageResult>, error: Option<Code>)
      requires |turns| == |uids| && fixture.enabled == m.enabled
      modifies this`session, this`aborted, this`log, guard, fixture`mailboxes
      ensures var b := MoveBatch(old(State()), m, uids, turns, old(fixture.mailboxes), false);
              && State() == b.client && fixture.mailboxes == b.store && log == old(log) + b.log
              && results == b.results && error == b.error
    {
      hide MoveUid, MoveBatch, Join, Continued, AllAs;
      ghost var whole := MoveBatch(State(), m, uids, turns, fixture.mailboxes, false);
      ghost var before := log;
      ghost var sent: seq<Entry> := [];
      var filled := PendingResults(uids);
      var written, index := false, 0;
      assert uids[0..] == uids && turns[0..] == turns && filled[..0] == [] && before + sent == log;
      Joined(whole);
      while index < |uids|
        invariant index <= |uids| == filled.Length
        invariant log == before + sent
        invariant whole == Join(sent, filled[..index], MoveBatch(State(), m, uids[index..], turns[index..], fixture.mailboxes, written))
        invariant filled[index..] == AllAs(uids[index..], NotAttempted, None)
      {
        ghost var done := filled[..index];
        ghost var t := MoveUid(State(), m, uids[index], turns[index]);
        Unfolds(State(), m, uids, turns, fixture.mailboxes, written, index);
        var result, stop := MoveOne(m, uids[index], turns[index]);
        Assoc(before, sent, t.log);
        ghost var rest := MoveBatch(State(), m, uids[index + 1..], turns[index + 1..], fixture.mailboxes, written || result.outcome == Applied);
        JoinContinued(sent, done, t, written, uids[index + 1..], rest);
        filled[index] := result;
        AllAsTail(uids, index);
        assert filled[..index + 1] == done + [result] && filled[index + 1..] == AllAs(uids[index + 1..], NotAttempted, None);
        if result.code == Some(Unsupported) {
          RefuseRemaining(filled, index + 1);
          assert filled[index + 1..] == AllAs(uids[index + 1..], Refused, Some(Unsupported));
          assert filled[..] == filled[..index + 1] + filled[index + 1..];
          return filled[..], None;
        }
        if stop && !written && result.outcome == NotAttempted {
          return [], result.code;
        }
        if stop {
          assert filled[..] == filled[..index + 1] + filled[index + 1..];
          return filled[..], None;
        }
        written := written || result.outcome == Applied;
        sent := sent + t.log;
        index := index + 1;
      }
      NothingMore(State(), m, uids[index..], turns[index..], fixture.mailboxes, written, sent, filled[..index]);
      assert filled[..] == filled[..index];
      return filled[..], None;
    }

    /** The loop of a Seen change. */
    method SeenLoop(m: Seer, uids: seq<nat>, turns: seq<Turn>) returns (results: seq<TriageResult>)
      requires |turns| == |uids|
      modifies this`session, this`aborted, this`log, fixture`mailboxes
      ensures var b := SeenBatch(old(State()), m, uids, turns, old(fixture.mailboxes));
              && State() == b.client && fixture.mailboxes == b.store && log == old(log) + b.log
              && results == b.results && b.error.None?
    {
      hide StoreSeen, SeenBatch, Join, SeenContinued, AllAs;
      ghost var whole := SeenBatch(State(), m, uids, turns, fixture.mailboxes);
      ghost var before := log;
      ghost var sent: seq<Entry> := [];
      var filled := PendingResults(uids);
      var index := 0;
      assert uids[0..] == uids && turns[0..] == turns && filled[..0] == [] && before + sent == log;
      Joined(whole);
      while index < |uids|
        invariant index <= |uids| == filled.Length
        invariant log == before + sent
        invariant whole == Join(sent, filled[..index], SeenBatch(State(), m, uids[index..], turns[index..], fixture.mailboxes))
        invariant filled[index..] == AllAs(uids[index..], NotAttempted, None)
      {
        ghost var done := filled[..index];
        ghost var t := StoreSeen(State(), m, uids[index], turns[index]);
        SeenUnfolds(State(), m, uids, turns, fixture.mailboxes, index);
        var result, stop := StoreOne(m, uids[index], turns[index]);
        Assoc(before, sent, t.log);
        ghost var rest := SeenBatch(State(), m, uids[index + 1..], turns[index + 1..], fixture.mailboxes);
        JoinSeen(sent, done, t, uids[index + 1..], rest);
        filled[index] := result;
        AllAsTail(uids, index);
        assert filled[..index + 1] == done + [result] && filled[index + 1..] == AllAs(uids[index + 1..], NotAttempted, None);
        if stop {
          assert filled[..] == filled[..index + 1] + filled[index + 1..];
          return filled[..];
        }
        sent := sent + t.log;
        index := index + 1;
      }
      NoMoreSeen(State(), m, uids[index..], turns[index..], fixture.mailboxes, sent, filled[..index]);
      assert filled[..] == filled[..index];
      return filled[..];
    }

    // ---- Requests ----

    /** Natively moves each UID to the one target of the request. */
    method Move(r: Request, e: Surroundings) returns (results: seq<TriageResult>, error: Option<Code>)
      requires r.Moving? && |e.turns| == |r.uids|
      modifies this`session, this`next, this`aborted, this`log, guard, fixture`mailboxes
      ensures var b := Handle(old(State()), fixture.enabled, r, e, old(fixture.mailboxes));
              && State() == b.client && fixture.mailboxes == b.store && log == old(log) + b.log
              && results == b.results && error == b.error
    {
      hide MoveBatch, OpenSource, Refusal, SelfMove, AllAs;
      assert log + [] == log;
      var refusal := Refusal(r);
      if refusal.Some? {
        return [], refusal;
      }
      var pending := PendingResults(r.uids);
      if SelfMove(r) {
        RefuseAll(r.uids, pending);
        return pending[..], None;
      }
      if e.acquired.Some? {
        return [], e.acquired;
      }
      var opening := OpenTriageSource(e.first, e.second, r.uidValidity);
      if opening.OpenFails? {
        return [], Some(opening.code);
      }
      if !e.mover {
        return [], Some(ImapProtocol);
      }
      if !e.supports {
        RefuseAll(r.uids, pending);
        return pending[..], None;
      }
      results, error := MoveLoop(Mover(opening.session, fixture.enabled, Selection(r.mailbox, false), ResolverOf(r)), r.uids, e.turns);
    }

    method RefuseAll(uids: seq<nat>, results: array<TriageResult>)
      requires results[..] == AllAs(uids, NotAttempted, None)
      modifies results
      ensures results[..] == AllAs(uids, Refused, Some(Unsupported))
    {
      assert forall i :: 0 <= i < results.Length ==> results[i] == results[..][i];
      RefuseRemaining(results, 0);
      assert results[..] == AllAs(uids, Refused, Some(Unsupported));
    }

    /** Sets or clears \Seen on each UID. */
    method SetSeen(r: Request, e: Surroundings) returns (results: seq<TriageResult>, error: Option<Code>)
      requires r.Marking? && |e.turns| == |r.uids|
      modifies this`session, this`next, this`aborted, this`log, fixture`mailboxes
      ensures var b := Handle(old(State()), fixture.enabled, r, e, old(fixture.mailboxes));
              && State() == b.client && fixture.mailboxes == b.store && log == old(log) + b.log
              && results == b.results && error == b.error
    {
      hide SeenBatch, OpenSource, Refusal;
      assert log + [] == log;
      var refusal := Refusal(r);
      if refusal.Some? {
        return [], refusal;
      }
      if e.acquired.Some? {
        return [], e.acquired;
      }
      var opening := OpenTriageSource(e.first, e.second, r.uidValidity);
      if opening.OpenFails? {
        return [], Some(opening.code);
      }
      results := SeenLoop(Seer(opening.session, Selection(r.mailbox, false), r.seen), r.uids, e.turns);
      error := None;
    }
  }

  ghost function SeenContinued(t: Turned, later: seq<nat>, rest: Batch): Batch {
    if t.stop then Batch(t.client, t.store, t.log, [t.result] + AllAs(later, NotAttempted, None), None)
    else Batch(rest.client, rest.store, t.log + rest.log, [t.result] + rest.results, None)
  }

  lemma SeenUnfolds(c: Client, m: Seer, uids: seq<nat>, turns: seq<Turn>, store: Store, i: nat)
    requires |turns| == |uids| && i < |uids|
    ensures var t := StoreSeen(c, m, uids[i], turns[i]);
            SeenBatch(c, m, uids[i..], turns[i..], store)
            == SeenContinued(t, uids[i + 1..], SeenBatch(t.client, m, uids[i + 1..], turns[i + 1..], t.store))
  {
    hide StoreSeen;
    assert uids[i..][0] == uids[i] && uids[i..][1..] == uids[i + 1..] && turns[i..][0] == turns[i] && turns[i..][1..] == turns[i + 1..];
  }

  lemma JoinSeen(log: seq<Entry>, results: seq<TriageResult>, t: Turned, later: seq<nat>, rest: Batch)
    requires rest.error.None?
    ensures var all := Join(log, results, SeenContinued(t, later, rest));
            all == if t.stop then Batch(t.client, t.store, log + t.log, results + [t.result] + AllAs(later, NotAttempted, None), None)
                   else Join(log + t.log, results + [t.result], rest)
  {
    assert results + ([t.result] + AllAs(later, NotAttempted, None)) == results + [t.result] + AllAs(later, NotAttempted, None);
    assert results + ([t.result] + rest.results) == results + [t.result] + rest.results;
    Assoc(log, t.log, rest.log);
  }

  lemma NoMoreSeen(c: Client, m: Seer, uids: seq<nat>, turns: seq<Turn>, store: Store, log: seq<Entry>, results: seq<TriageResult>)
    requires |turns| == |uids| && uids == []
    ensures Join(log, results, SeenBatch(c, m, uids, turns, store)) == Batch(c, store, log, results, None)
  {
    assert log + [] == log && results + [] == results;
  }

  lemma AllAsTail(uids: seq<nat>, index: nat)
    requires index < |uids|
    ensures AllAs(uids[index..], NotAttempted, None)[1..] == AllAs(uids[index + 1..], NotAttempted, None)
  {
  }

  /** The batch from a turn on, given the rest of it. */
  ghost function Continued(t: Turned, written: bool, later: seq<nat>, rest: Batch): Batch {
    if t.result.code == Some(Unsupported) then
      Batch(t.client, t.store, t.log, [t.result] + AllAs(later, Refused, Some(Unsupported)), None)
    else if t.stop && !written && t.result.outcome == NotAttempted then Batch(t.client, t.store, t.log, [], t.result.code)
    else if t.stop then Batch(t.client, t.store, t.log, [t.result] + AllAs(later, NotAttempted, None), None)
    else Batch(rest.client, rest.store, t.log + rest.log, if rest.error.Some? then [] else [t.result] + rest.results, rest.error)
  }

  lemma Unfolds(c: Client, m: Mover, uids: seq<nat>, turns: seq<Turn>, store: Store, written: bool, i: nat)
    requires |turns| == |uids| && i < |uids|
    ensures var t := MoveUid(c, m, uids[i], turns[i]);
            MoveBatch(c, m, uids[i..], turns[i..], store, written)
            == Continued(t, written, uids[i + 1..],
                         MoveBatch(t.client, m, uids[i + 1..], turns[i + 1..], t.store, written || t.result.outcome == Applied))
  {
    hide MoveUid;
    assert uids[i..][0] == uids[i] && uids[i..][1..] == uids[i + 1..] && turns[i..][0] == turns[i] && turns[i..][1..] == turns[i + 1..];
  }

  /** A batch with what came before it. */
  ghost function Join(log: seq<Entry>, results: seq<TriageResult>, b: Batch): Batch {
    b.(log := log + b.log, results := if b.error.Some? then [] else results + b.results)
  }

  lemma Joined(b: Batch)
    requires b.error.Some? ==> b.results == []
    ensures Join([], [], b) == b
  {
    assert [] + b.log == b.log && [] + b.results == b.results;
  }

  lemma JoinContinued(log: seq<Entry>, results: seq<TriageResult>, t: Turned, written: bool, later: seq<nat>, rest: Batch)
    ensures var r, all := t.result, Join(log, results, Continued(t, written, later, rest));
            && (r.code == Some(Unsupported) ==>
                  all == Batch(t.client, t.store, log + t.log, results + [r] + AllAs(later, Refused, Some(Unsupported)), None))
            && (r.code != Some(Unsupported) && t.stop && !written && r.outcome == NotAttempted && r.code.Some? ==>
                  all == Batch(t.client, t.store, log + t.log, [], r.code))
            && (r.code != Some(Unsupported) && t.stop && (written || r.outcome != NotAttempted) ==>
                  all == Batch(t.client, t.store, log + t.log, results + [r] + AllAs(later, NotAttempted, None), None))
            && (r.code != Some(Unsupported) && !t.stop ==> all == Join(log + t.log, results + [r], rest))
  {
    assert results + ([t.result] + AllAs(later, Refused, Some(Unsupported))) == results + [t.result] + AllAs(later, Refused, Some(Unsupported));
    assert results + ([t.result] + AllAs(later, NotAttempted, None)) == results + [t.result] + AllAs(later, NotAttempted, None);
    assert results + ([t.result] + rest.results) == results + [t.result] + rest.results;
    Assoc(log, t.log, rest.log);
  }

  lemma NothingMore(c: Client, m: Mover, uids: seq<nat>, turns: seq<Turn>, store: Store, written: bool, log: seq<Entry>, results: seq<TriageResult>)
    requires |turns| == |uids| && uids == []
    ensures Join(log, results, MoveBatch(c, m, uids, turns, store, written)) == Batch(c, store, log, results, None)
  {
    assert log + [] == log && results + [] == results;
  }
}
