/** What a batch may claim, against every schedule of faults: at-most-once
    dispatch in input order, and outcomes that are true of the mailboxes. */
module TriageSafety {
  import opened Octets
  import opened Sequences
  import opened Wrappers
  import opened MailStore
  import opened MailServer
  import opened MoveDestination
  import opened DispatchGuard
  import opened TriageProtocol

  // ---- Order ----

  /** s is what is left of t after dropping some elements. */
  predicate Sub(s: seq<nat>, t: seq<nat>) {
    s == [] || (t != [] && ((s[0] == t[0] && Sub(s[1..], t[1..])) || Sub(s, t[1..])))
  }

  function LogUids(log: seq<Entry>): (r: seq<nat>)
    ensures |r| == |log| && forall i :: 0 <= i < |r| ==> r[i] == log[i].uid
  {
    seq(|log|, i requires 0 <= i < |log| => log[i].uid)
  }

  lemma {:induction false} SubIn(s: seq<nat>, t: seq<nat>)
    requires Sub(s, t)
    ensures forall x :: x in s ==> x in t
    decreases |t|
  {
    if s != [] {
      if s[0] == t[0] && Sub(s[1..], t[1..]) {
        SubIn(s[1..], t[1..]);
        assert s == [s[0]] + s[1..];
      } else {
        SubIn(s, t[1..]);
      }
    }
  }

  /** What is drawn in order from distinct elements is distinct: no UID is
      dispatched twice. */
  lemma {:induction false} SubDistinct(s: seq<nat>, t: seq<nat>)
    requires Sub(s, t) && Distinct(t)
    ensures Distinct(s)
    decreases |t|
  {
    if s != [] {
      assert forall i :: 0 <= i < |t| - 1 ==> t[1..][i] == t[i + 1];
      if s[0] == t[0] && Sub(s[1..], t[1..]) {
        SubDistinct(s[1..], t[1..]);
        SubIn(s[1..], t[1..]);
        forall i, j | 0 <= i < j < |s| ensures s[i] != s[j] {
          assert s[j] == s[1..][j - 1] && s[j] in t[1..];
          if i > 0 {
            assert s[i] == s[1..][i - 1];
          }
        }
      } else {
        SubDistinct(s, t[1..]);
      }
    }
  }

  lemma SubFirst(log: seq<Entry>, later: seq<Entry>, uid: nat, uids: seq<nat>)
    requires |log| <= 1 && (log != [] ==> log[0].uid == uid) && Sub(LogUids(later), uids)
    ensures Sub(LogUids(log + later), [uid] + uids)
  {
    var t := [uid] + uids;
    assert t[1..] == uids;
    if log == [] {
      assert log + later == later;
    } else {
      assert LogUids(log + later) == [uid] + LogUids(later);
      assert LogUids(log + later)[1..] == LogUids(later);
    }
  }

  // ---- Mailboxes ----

  lemma OnlyFound(s: Store, name: bytes)
    requires ValidStore(s) && FindMailbox(s, name) < |s|
    ensures forall i :: 0 <= i < |s| && NameMatches(s[i].name, name) ==> i == FindMailbox(s, name)
  {
    hide ValidMailbox, FoldIs;
    var k := FindMailbox(s, name);
    forall i | 0 <= i < |s| && NameMatches(s[i].name, name) ensures i == k {
      assert k < i ==> !NameMatches(s[k].name, s[i].name);
    }
  }

  ghost predicate Reserved(s: Store, name: bytes, uid: nat) {
    forall i :: 0 <= i < |s| && NameMatches(s[i].name, name) ==> uid < s[i].uidNext
  }

  lemma HasReserves(s: Store, name: bytes, uid: nat)
    requires ValidStore(s) && Has(s, name, uid)
    ensures Reserved(s, name, uid)
  {
    hide FoldIs, NameMatches;
    OnlyFound(s, name);
    var k := FindMailbox(s, name);
    assert ValidMailbox(s[k]);
  }

  lemma StillReserved(s: Store, later: Store, name: bytes, uid: nat)
    requires Evolves(s, later) && Reserved(s, name, uid)
    ensures Reserved(later, name, uid)
  {
    hide NameMatches, Uids;
    forall j | 0 <= j < |later| && NameMatches(later[j].name, name) ensures uid < later[j].uidNext {
      assert ContinuesOne(s, later[j]);
      var i :| 0 <= i < |s| && Continues(s[i], later[j]);
    }
  }

  /** A completed UID MOVE of a UID that was there leaves it gone. */
  lemma MovedIsGone(s: Store, enabled: bool, at: Selection, uid: nat, target: bytes)
    requires ValidStore(s) && Reserved(s, at.selected, uid)
    requires MoveCommand(s, enabled, at, One(uid), target).1 == Ok
    ensures Gone(MoveCommand(s, enabled, at, One(uid), target).0, at.selected, uid)
  {
    hide MoveCommand, NameMatches, Uids, ValidMailbox;
    var t := MoveCommand(s, enabled, at, One(uid), target).0;
    MoveKeeps(s, enabled, at, One(uid), target);
    var k := FindMailbox(s, at.selected);
    StillReserved(s, t, at.selected, uid);
    OnlyFound(s, at.selected);
    assert NameMatches(t[k].name, at.selected);
    OnlyAt(t, k, at.selected);
    assert One(uid)[0].start <= uid <= One(uid)[0].end && InRanges(uid, One(uid));
  }

  lemma OnlyAt(s: Store, k: nat, name: bytes)
    requires ValidStore(s) && k < |s| && NameMatches(s[k].name, name)
    ensures forall i :: 0 <= i < |s| && NameMatches(s[i].name, name) ==> i == k
  {
    hide ValidMailbox, FoldIs;
    assert forall i, j :: 0 <= i < j < |s| && NameMatches(s[i].name, name) ==> !NameMatches(s[j].name, name);
  }

  // ---- One move ----

  /** What one turn may claim. */
  ghost predicate SoundTurn(c: Client, session: nat, uid: nat, store: Store, t: Turned) {
    && ValidStore(t.store) && Evolves(store, t.store) && ValidClient(t.client)
    && |t.log| <= 1 && (t.log != [] ==> t.log[0].uid == uid && t.log[0].session == session)
    && (t.result.outcome != Blank ==> t.result.uid == uid)
    && (t.result.outcome == Applied ==> t.log != [])
    && (t.result.outcome in {Refused, NotAttempted, Blank} ==> forall e :: e in t.log ==> HadNoEffect(e))
    && (t.result.outcome in {NotAttempted, Blank} ==> t.log == [])
    && (t.stop <==> t.result.outcome in {Unknown, NotAttempted})
    && (t.stop ==> t.client == Invalidate(c, session) && t.result.code.Some?)
    && (t.stop || t.result.code == Some(Unsupported) || t.client == c)
    && (t.client == c || t.client == Invalidate(c, session))
    && (t.result.outcome == Unknown ==> t.result.code != Some(Unsupported))
  }

  /** What reached the server in one dispatch, and what it did. */
  lemma DispatchIs(m: Mover, uid: nat, target: bytes, turn: Turn)
    requires OneLine(uid, turn.attempt) && HonestAttempt(turn.attempt)
    ensures var (log, error) := DispatchMove(m, uid, target, turn);
            var (after, completion) := MoveCommand(turn.arrival, m.enabled, m.at, One(uid), target);
            && |log| <= 1
            && (log != [] ==> log[0].session == m.session && log[0].uid == uid && log[0].before == turn.arrival
                              && (log[0].after == after || log[0].after == turn.arrival))
            && (error.None? ==> log != [] && completion == Ok && log[0].after == after)
            && (error == Some(Unsupported) ==> log == [])
            && (error == Some(ImapCommand) ==> completion != Ok)
  {
    hide MoveCommand, NativeMoveLine, Prefix, WriteAll;
    ArmedForwardsOneMove(uid, turn.attempt.writes);
    TripMeansNothingSentIff(uid, turn.attempt.writes);
  }

  lemma DispatchLeaves(m: Mover, uid: nat, target: bytes, turn: Turn, store: Store)
    requires ValidStore(store) && HonestTurn(store, m.at.selected, uid, turn) && OneLine(uid, turn.attempt)
    ensures var after := StoreAfter(DispatchMove(m, uid, target, turn).0, turn.arrival);
            ValidStore(after) && Evolves(store, after)
  {
    hide MoveCommand, NativeMoveLine, Prefix, WriteAll, ValidStore, Evolves, DispatchMove, Has, OneLine;
    DispatchIs(m, uid, target, turn);
    MoveKeeps(turn.arrival, m.enabled, m.at, One(uid), target);
    EvolvesThen(store, turn.probed, turn.arrival);
    EvolvesThen(store, turn.arrival, MoveCommand(turn.arrival, m.enabled, m.at, One(uid), target).0);
  }

  /** What the client concludes is what the ends of a dispatch allow. */
  lemma ConcludeIs(c: Client, session: nat, uid: nat, error: Option<Code>)
    requires ValidClient(c)
    ensures var (client, result, stop) := Conclude(c, session, uid, error);
            && ValidClient(client) && result.uid == uid && result.code == error
            && (client == c || client == Invalidate(c, session))
            && (result.outcome == Applied <==> error.None?)
            && (result.outcome == Refused <==> error == Some(Unsupported) || error == Some(ImapCommand))
            && (stop <==> result.outcome == Unknown)
            && (stop ==> client == Invalidate(c, session))
            && (stop || error == Some(Unsupported) || client == c)
            && result.outcome in {Applied, Refused, Unknown}
  {
  }

  lemma DispatchSound(c: Client, m: Mover, uid: nat, target: bytes, turn: Turn, store: Store)
    requires ValidClient(c) && ValidStore(store) && HonestTurn(store, m.at.selected, uid, turn) && OneLine(uid, turn.attempt)
    ensures var (log, error) := DispatchMove(m, uid, target, turn);
            var (client, result, stop) := Conclude(c, m.session, uid, error);
            SoundTurn(c, m.session, uid, store, Turned(client, StoreAfter(log, turn.arrival), log, result, stop))
  {
    hide MoveCommand, ValidStore, Evolves, DispatchMove, OneLine, Conclude, ValidClient, StoreAfter, Invalidate;
    DispatchIs(m, uid, target, turn);
    DispatchLeaves(m, uid, target, turn, store);
    ConcludeIs(c, m.session, uid, DispatchMove(m, uid, target, turn).1);
    MoveKeeps(turn.arrival, m.enabled, m.at, One(uid), target);
  }

  lemma MoveUidSound(c: Client, m: Mover, uid: nat, turn: Turn, store: Store)
    requires ValidClient(c) && ValidStore(store) && HonestTurn(store, m.at.selected, uid, turn) && OneLine(uid, turn.attempt)
    ensures SoundTurn(c, m.session, uid, store, MoveUid(c, m, uid, turn))
  {
    hide DispatchMove, ValidStore, Evolves, Has, OneLine, Resolve;
    if turn.probe.Found? && turn.lookup.Lists? {
      var target := Resolve(m.resolver, turn.lookup.listing);
      if target.Some? && target.value != [] {
        DispatchSound(c, m, uid, target.value, turn, store);
      }
    }
  }

  lemma MoveUidGone(c: Client, m: Mover, uid: nat, turn: Turn, store: Store)
    requires ValidStore(store) && HonestTurn(store, m.at.selected, uid, turn) && OneLine(uid, turn.attempt)
    requires MoveUid(c, m, uid, turn).result.outcome == Applied
    ensures Gone(MoveUid(c, m, uid, turn).store, m.at.selected, uid)
  {
    hide DispatchMove, ValidStore, Evolves, Has, OneLine, Resolve, Gone, MoveCommand, Reserved;
    var target := Resolve(m.resolver, turn.lookup.listing).value;
    DispatchIs(m, uid, target, turn);
    HasReserves(turn.probed, m.at.selected, uid);
    StillReserved(turn.probed, turn.arrival, m.at.selected, uid);
    MovedIsGone(turn.arrival, m.enabled, m.at, uid, target);
  }

  // ---- The batch ----

  ghost predicate Stops(t: Turned) {
    t.stop || t.result.code == Some(Unsupported)
  }

  /** Every turn the batch takes is one the environment may take. */
  ghost predicate Plausible(c: Client, m: Mover, uids: seq<nat>, turns: seq<Turn>, store: Store)
    requires |turns| == |uids|
    decreases |uids|
  {
    uids == [] ||
    (&& HonestTurn(store, m.at.selected, uids[0], turns[0]) && OneLine(uids[0], turns[0].attempt)
     && var t := MoveUid(c, m, uids[0], turns[0]);
        Stops(t) || Plausible(t.client, m, uids[1..], turns[1..], t.store))
  }

  /** A result is true of the log of the batch and of the store it leaves. */
  ghost predicate SoundResult(r: TriageResult, uid: nat, log: seq<Entry>) {
    && (r.outcome != Blank ==> r.uid == uid)
    && (r.outcome == Applied ==> exists e :: e in log && e.uid == uid)
    && (r.outcome == Refused ==> forall e :: e in log && e.uid == uid ==> HadNoEffect(e))
    && (r.outcome in {NotAttempted, Blank} ==> forall e :: e in log ==> e.uid != uid)
  }

  ghost predicate SoundBatch(c: Client, session: nat, uids: seq<nat>, store: Store, written: bool, b: Batch) {
    && ValidStore(b.store) && Evolves(store, b.store) && ValidClient(b.client)
    && Sub(LogUids(b.log), uids)
    && (forall e :: e in b.log ==> e.session == session)
    && (b.client == c || b.client == Invalidate(c, session))
    && (b.error.Some? ==> !written && b.results == [] && b.client == Invalidate(c, session) && forall e :: e in b.log ==> HadNoEffect(e))
    && (b.error.None? ==>
          && SoundResults(b.results, uids, b.log)
          && (Uncertain(b.results) ==> b.client == Invalidate(c, session)))
  }

  ghost predicate Uncertain(results: seq<TriageResult>) {
    exists i :: 0 <= i < |results| && results[i].outcome == Unknown
  }

  /** Every result is true, and nothing was attempted after an uncertain one. */
  ghost predicate SoundResults(results: seq<TriageResult>, uids: seq<nat>, log: seq<Entry>) {
    && |results| == |uids|
    && (forall i :: 0 <= i < |uids| ==> SoundResult(results[i], uids[i], log))
    && (forall i, j :: 0 <= i < j < |uids| && results[i].outcome == Unknown ==> results[j].outcome == NotAttempted)
  }

  lemma FirstResult(r: TriageResult, uid: nat, log: seq<Entry>, uids: seq<nat>, outcome: Outcome, code: Option<Code>)
    requires Distinct([uid] + uids) && SoundResult(r, uid, log) && forall e :: e in log ==> e.uid == uid
    requires outcome == NotAttempted || (outcome == Refused && r.outcome != Unknown)
    ensures SoundResults([r] + AllAs(uids, outcome, code), [uid] + uids, log)
    ensures Uncertain([r] + AllAs(uids, outcome, code)) <==> r.outcome == Unknown
  {
    hide HadNoEffect;
    var results, all := [r] + AllAs(uids, outcome, code), [uid] + uids;
    assert results[0] == r;
    forall i | 0 <= i < |all| ensures SoundResult(results[i], all[i], log) {
      if i > 0 {
        assert all[0] != all[i] && results[i] == TriageResult(uids[i - 1], outcome, code);
      }
    }
  }

  lemma MoreResults(r: TriageResult, uid: nat, mine: seq<Entry>, results: seq<TriageResult>, uids: seq<nat>, log: seq<Entry>)
    requires Distinct([uid] + uids) && SoundResults(results, uids, log) && r.outcome != Unknown
    requires SoundResult(r, uid, mine + log) && |mine| <= 1 && (mine != [] ==> mine[0].uid == uid)
    ensures SoundResults([r] + results, [uid] + uids, mine + log)
    ensures Uncertain([r] + results) ==> Uncertain(results)
  {
    hide HadNoEffect, SoundResult;
    var longer, all := [r] + results, [uid] + uids;
    forall i | 0 <= i < |all| ensures SoundResult(longer[i], all[i], mine + log) {
      if i > 0 {
        assert all[0] != all[i] && longer[i] == results[i - 1];
        LaterSound(mine, uid, results[i - 1], uids[i - 1], log);
      }
    }
    forall i, j | 0 <= i < j < |all| && longer[i].outcome == Unknown ensures longer[j].outcome == NotAttempted {
      assert i > 0 && longer[i] == results[i - 1] && longer[j] == results[j - 1];
    }
    if i :| 0 <= i < |longer| && longer[i].outcome == Unknown {
      assert results[i - 1] == longer[i];
    }
  }

  lemma NoEntryOf(log: seq<Entry>, uids: seq<nat>, uid: nat)
    requires Sub(LogUids(log), uids) && uid !in uids
    ensures forall e :: e in log ==> e.uid != uid
  {
    SubIn(LogUids(log), uids);
    forall e | e in log ensures e.uid != uid {
      var i :| 0 <= i < |log| && log[i] == e;
      assert LogUids(log)[i] in uids;
    }
  }

  /** A sound turn that ends the batch makes a sound batch. */
  lemma LastTurn(c: Client, session: nat, uids: seq<nat>, store: Store, written: bool, t: Turned, outcome: Outcome, code: Option<Code>)
    requires uids != [] && Distinct(uids) && SoundTurn(c, session, uids[0], store, t)
    requires outcome == NotAttempted || (outcome == Refused && t.result.outcome != Unknown)
    ensures SoundBatch(c, session, uids, store, written, Batch(t.client, t.store, t.log, [t.result] + AllAs(uids[1..], outcome, code), None))
  {
    hide ValidStore, Evolves, ValidClient, Sub, HadNoEffect, SoundResults, Uncertain, AllAs, LogUids, Invalidate;
    SubNone(uids[1..]);
    assert [uids[0]] + uids[1..] == uids && t.log + [] == t.log;
    SubFirst(t.log, [], uids[0], uids[1..]);
    FirstSound(c, session, uids[0], store, t, []);
    FirstResult(t.result, uids[0], t.log, uids[1..], outcome, code);
  }

  lemma SubNone(uids: seq<nat>)
    ensures Sub(LogUids([]), uids)
  {
  }

  lemma FailedTurn(c: Client, session: nat, uids: seq<nat>, store: Store, t: Turned)
    requires uids != [] && SoundTurn(c, session, uids[0], store, t) && t.stop && t.result.outcome == NotAttempted
    ensures SoundBatch(c, session, uids, store, false, Batch(t.client, t.store, t.log, [], t.result.code))
  {
    hide ValidStore, Evolves, ValidClient;
    SubNone(uids);
  }

  /** A sound turn before a sound batch makes a sound batch. */
  lemma NextTurn(c: Client, session: nat, uids: seq<nat>, store: Store, written: bool, t: Turned, b: Batch)
    requires uids != [] && Distinct(uids) && SoundTurn(c, session, uids[0], store, t) && !Stops(t)
    requires SoundBatch(c, session, uids[1..], t.store, written || t.result.outcome == Applied, b)
    ensures SoundBatch(c, session, uids, store, written,
                       Batch(b.client, b.store, t.log + b.log, if b.error.Some? then [] else [t.result] + b.results, b.error))
  {
    hide ValidStore, Evolves, ValidClient, Sub, HadNoEffect, SoundResults, Uncertain, LogUids, Invalidate, SoundResult;
    var log := t.log + b.log;
    EvolvesThen(store, t.store, b.store);
    assert [uids[0]] + uids[1..] == uids;
    SubFirst(t.log, b.log, uids[0], uids[1..]);
    assert uids[0] !in uids[1..];
    NoEntryOf(b.log, uids[1..], uids[0]);
    assert forall e :: e in log <==> e in t.log || e in b.log;
    if b.error.None? {
      FirstSound(c, session, uids[0], store, t, b.log);
      MoreResults(t.result, uids[0], t.log, b.results, uids[1..], b.log);
    }
  }

  lemma FirstSound(c: Client, session: nat, uid: nat, store: Store, t: Turned, later: seq<Entry>)
    requires SoundTurn(c, session, uid, store, t) && forall e :: e in later ==> e.uid != uid
    ensures SoundResult(t.result, uid, t.log + later)
  {
    hide ValidStore, Evolves, ValidClient, HadNoEffect;
    var log := t.log + later;
    assert forall e :: e in log <==> e in t.log || e in later;
    if t.result.outcome == Applied {
      assert t.log[0] in log;
    }
  }

  lemma LaterSound(earlier: seq<Entry>, first: nat, r: TriageResult, uid: nat, log: seq<Entry>)
    requires SoundResult(r, uid, log) && first != uid && |earlier| <= 1 && (earlier != [] ==> earlier[0].uid == first)
    ensures SoundResult(r, uid, earlier + log)
  {
    hide HadNoEffect;
    var all := earlier + log;
    assert forall e :: e in all <==> e in earlier || e in log;
    if r.outcome == Applied {
      var e :| e in log && e.uid == uid;
      assert e in all;
    }
  }

  lemma {:induction false} MoveBatchSound(c: Client, m: Mover, uids: seq<nat>, turns: seq<Turn>, store: Store, written: bool)
    requires |turns| == |uids| && Distinct(uids) && ValidClient(c) && ValidStore(store) && Plausible(c, m, uids, turns, store)
    ensures SoundBatch(c, m.session, uids, store, written, MoveBatch(c, m, uids, turns, store, written))
    decreases |uids|
  {
    hide MoveUid, HonestTurn, OneLine, ValidStore, Evolves, ValidClient, Sub, HadNoEffect, SoundResult;
    if uids == [] {
      EvolvesSame(store);
      SubNone(uids);
    } else {
      var t := MoveUid(c, m, uids[0], turns[0]);
      MoveUidSound(c, m, uids[0], turns[0], store);
      if t.result.code == Some(Unsupported) {
        LastTurn(c, m.session, uids, store, written, t, Refused, Some(Unsupported));
      } else if t.stop && !written && t.result.outcome == NotAttempted {
        FailedTurn(c, m.session, uids, store, t);
      } else if t.stop {
        LastTurn(c, m.session, uids, store, written, t, NotAttempted, None);
      } else {
        assert Distinct(uids[1..]) by {
          assert forall i :: 0 <= i < |uids| - 1 ==> uids[1..][i] == uids[i + 1];
        }
        MoveBatchSound(c, m, uids[1..], turns[1..], t.store, written || t.result.outcome == Applied);
        NextTurn(c, m.session, uids, store, written, t, MoveBatch(c, m, uids[1..], turns[1..], t.store, written || t.result.outcome == Applied));
      }
    }
  }

  /** Every UID reported applied has left the source mailbox for good. */
  lemma {:induction false} AppliedIsGone(c: Client, m: Mover, uids: seq<nat>, turns: seq<Turn>, store: Store, written: bool)
    requires |turns| == |uids| && Distinct(uids) && ValidClient(c) && ValidStore(store) && Plausible(c, m, uids, turns, store)
    ensures var b := MoveBatch(c, m, uids, turns, store, written);
            forall i :: 0 <= i < |b.results| && b.results[i].outcome == Applied ==> Gone(b.store, m.at.selected, b.results[i].uid)
    decreases |uids|
  {
    hide MoveUid, HonestTurn, OneLine, ValidStore, Evolves, ValidClient, SoundBatch, Gone;
    if uids != [] {
      var t := MoveUid(c, m, uids[0], turns[0]);
      MoveUidSound(c, m, uids[0], turns[0], store);
      if t.result.outcome == Applied {
        MoveUidGone(c, m, uids[0], turns[0], store);
      }
      if !Stops(t) {
        assert Distinct(uids[1..]) by {
          assert forall i :: 0 <= i < |uids| - 1 ==> uids[1..][i] == uids[i + 1];
        }
        var more := written || t.result.outcome == Applied;
        var b := MoveBatch(t.client, m, uids[1..], turns[1..], t.store, more);
        AppliedIsGone(t.client, m, uids[1..], turns[1..], t.store, more);
        MoveBatchSound(t.client, m, uids[1..], turns[1..], t.store, more);
        assert Evolves(t.store, b.store) by { BatchEvolves(t.client, m.session, uids[1..], t.store, more, b); }
        if t.result.outcome == Applied {
          GoneForever(t.store, b.store, m.at.selected, uids[0]);
        }
      }
    }
  }

  lemma BatchEvolves(c: Client, session: nat, uids: seq<nat>, store: Store, written: bool, b: Batch)
    requires SoundBatch(c, session, uids, store, written, b)
    ensures Evolves(store, b.store)
  {
  }

  /** A result without a UID is reported exactly for a present UID whose listing
      names no mailbox where the attribute is held; a caller's exact destination
      is never empty. */
  lemma BlankIff(c: Client, m: Mover, uid: nat, turn: Turn)
    requires m.resolver.Exactly? ==> m.resolver.destination != []
    ensures MoveUid(c, m, uid, turn).result.outcome == Blank <==>
              turn.probe.Found? && turn.lookup.Lists? && HeldByNoName(turn.lookup.listing, m.resolver)
  {
    hide DispatchMove, Resolve, HeldByNoName;
    if turn.lookup.Lists? {
      EmptyTargetIff(turn.lookup.listing, m.resolver);
    }
  }

  lemma BlankTurn(c: Client, m: Mover, uid: nat, turn: Turn)
    requires MoveUid(c, m, uid, turn).result.outcome == Blank
    ensures MoveUid(c, m, uid, turn) == Turned(c, turn.probed, [], TriageResult(0, Blank, None), false)
  {
    hide DispatchMove, Resolve;
  }

  /** Such a turn dispatches nothing and keeps the session, and the batch goes
      on with the remaining UIDs as if it had begun with them. */
  lemma BlankGoesOn(c: Client, m: Mover, uids: seq<nat>, turns: seq<Turn>, store: Store, written: bool)
    requires |turns| == |uids| && uids != [] && MoveUid(c, m, uids[0], turns[0]).result.outcome == Blank
    ensures var b := MoveBatch(c, m, uids, turns, store, written);
            var rest := MoveBatch(c, m, uids[1..], turns[1..], turns[0].probed, written);
            && b.client == rest.client && b.store == rest.store && b.log == rest.log && b.error == rest.error
            && (b.error.None? ==> b.results == [TriageResult(0, Blank, None)] + rest.results)
  {
    hide MoveUid;
    BlankTurn(c, m, uids[0], turns[0]);
    var rest := MoveBatch(c, m, uids[1..], turns[1..], turns[0].probed, written);
    assert [] + rest.log == rest.log;
  }

  // ---- Set seen ----

  lemma StoreIs(m: Seer, uid: nat, turn: Turn)
    requires HonestAttempt(turn.attempt)
    ensures var (log, error) := DispatchStore(m, uid, turn);
            var (after, completion) := StoreCommand(turn.arrival, m.at, One(uid), m.seen);
            && |log| <= 1
            && (log != [] ==> log[0].session == m.session && log[0].uid == uid && log[0].before == turn.arrival
                              && (log[0].after == after || log[0].after == turn.arrival))
            && (error.None? ==> log != [] && completion == Ok && log[0].after == after)
            && (error == Some(ImapCommand) ==> completion != Ok)
            && error != Some(Unsupported)
  {
    hide StoreCommand;
  }

  lemma StoredSound(m: Seer, uid: nat, turn: Turn, store: Store)
    requires ValidStore(store) && HonestTurn(store, m.at.selected, uid, turn)
    ensures var after := StoreAfter(DispatchStore(m, uid, turn).0, turn.arrival);
            ValidStore(after) && Evolves(store, after)
  {
    hide StoreCommand, ValidStore, Evolves, DispatchStore, Has, InRanges;
    StoreIs(m, uid, turn);
    StoreKeeps(turn.arrival, m.at, One(uid), m.seen);
    EvolvesThen(store, turn.probed, turn.arrival);
    EvolvesThen(store, turn.arrival, StoreCommand(turn.arrival, m.at, One(uid), m.seen).0);
  }

  lemma StoreSeenSound(c: Client, m: Seer, uid: nat, turn: Turn, store: Store)
    requires ValidClient(c) && ValidStore(store) && HonestTurn(store, m.at.selected, uid, turn)
    ensures SoundTurn(c, m.session, uid, store, StoreSeen(c, m, uid, turn))
    ensures Stops(StoreSeen(c, m, uid, turn)) ==> StoreSeen(c, m, uid, turn).stop
  {
    hide StoreCommand, ValidStore, Evolves, DispatchStore, Has, InRanges, StoreAfter;
    if turn.probe.Found? {
      StoreIs(m, uid, turn);
      StoredSound(m, uid, turn, store);
      StoreKeeps(turn.arrival, m.at, One(uid), m.seen);
    }
  }

  /** Every message of that UID in the mailbox answers as asked. */
  ghost predicate AnswersAs(s: Store, name: bytes, uid: nat, seen: bool) {
    var k := FindMailbox(s, name);
    k < |s| ==> forall i :: 0 <= i < |s[k].messages| && s[k].messages[i].uid == uid ==> Seen(s[k].messages[i].flags) == seen
  }

  ghost predicate PlausibleStores(c: Client, m: Seer, uids: seq<nat>, turns: seq<Turn>, store: Store)
    requires |turns| == |uids|
    decreases |uids|
  {
    uids == [] ||
    (&& HonestTurn(store, m.at.selected, uids[0], turns[0])
     && var t := StoreSeen(c, m, uids[0], turns[0]);
        Stops(t) || PlausibleStores(t.client, m, uids[1..], turns[1..], t.store))
  }

  lemma {:induction false} SeenBatchSound(c: Client, m: Seer, uids: seq<nat>, turns: seq<Turn>, store: Store)
    requires |turns| == |uids| && Distinct(uids) && ValidClient(c) && ValidStore(store) && PlausibleStores(c, m, uids, turns, store)
    ensures var b := SeenBatch(c, m, uids, turns, store); SoundBatch(c, m.session, uids, store, true, b) && b.error.None?
    decreases |uids|
  {
    hide StoreSeen, HonestTurn, ValidStore, Evolves, ValidClient, Sub, HadNoEffect, SoundResult;
    if uids == [] {
      EvolvesSame(store);
      SubNone(uids);
    } else {
      var t := StoreSeen(c, m, uids[0], turns[0]);
      StoreSeenSound(c, m, uids[0], turns[0], store);
      if t.stop {
        LastTurn(c, m.session, uids, store, true, t, NotAttempted, None);
      } else {
        assert Distinct(uids[1..]) by {
          assert forall i :: 0 <= i < |uids| - 1 ==> uids[1..][i] == uids[i + 1];
        }
        SeenBatchSound(c, m, uids[1..], turns[1..], t.store);
        NextTurn(c, m.session, uids, store, true, t, SeenBatch(c, m, uids[1..], turns[1..], t.store));
      }
    }
  }

  lemma StoredAnswers(s: Store, at: Selection, uid: nat, seen: bool)
    requires ValidStore(s) && StoreCommand(s, at, One(uid), seen).1 == Ok
    ensures AnswersAs(StoreCommand(s, at, One(uid), seen).0, at.selected, uid, seen)
  {
    hide FoldIs, NameMatches, SetSeen, Seen, WithoutSeen, Uids, StoreCommand;
    StoreKeeps(s, at, One(uid), seen);
    var t := StoreCommand(s, at, One(uid), seen).0;
    var k := FindMailbox(s, at.selected);
    OnlyAt(t, k, at.selected) by {
      assert NameMatches(t[k].name, at.selected);
    }
    assert One(uid)[0].start <= uid <= One(uid)[0].end && InRanges(uid, One(uid));
    forall i | 0 <= i < |t[k].messages| && t[k].messages[i].uid == uid ensures Seen(t[k].messages[i].flags) == seen {
      assert Touched(s[k].messages[i], t[k].messages[i], One(uid), seen);
    }
  }

  /** Every UID reported applied answered as asked when its command completed. */
  lemma {:induction false} AppliedIsStored(c: Client, m: Seer, uids: seq<nat>, turns: seq<Turn>, store: Store)
    requires |turns| == |uids| && ValidClient(c) && ValidStore(store) && PlausibleStores(c, m, uids, turns, store)
    ensures var b := SeenBatch(c, m, uids, turns, store);
            AllStoredIn(b.results, b.log, m)
    decreases |uids|
  {
    hide StoreSeen, HonestTurn, ValidStore, Evolves, ValidClient, AnswersAs, StoredIn;
    if uids != [] {
      var t := StoreSeen(c, m, uids[0], turns[0]);
      StoreSeenSound(c, m, uids[0], turns[0], store);
      if t.result.outcome == Applied {
        StoreSeenAnswers(c, m, uids[0], turns[0], store);
      }
      if !t.stop {
        AppliedIsStored(t.client, m, uids[1..], turns[1..], t.store);
        var b := SeenBatch(t.client, m, uids[1..], turns[1..], t.store);
        assert AllStoredIn(b.results, b.log, m);
        var full := SeenBatch(c, m, uids, turns, store);
        assert full.log == t.log + b.log && full.results == [t.result] + b.results;
        forall i | 0 <= i < |full.results| && full.results[i].outcome == Applied ensures StoredIn(full.log, m, full.results[i].uid) {
          if i > 0 {
            assert full.results[i] == b.results[i - 1];
          } else {
            assert full.results[i] == t.result && t.result.uid == uids[0];
          }
          StoredMore(t.log, b.log, m, full.results[i].uid);
        }
      }
    }
  }

  ghost predicate AllStoredIn(results: seq<TriageResult>, log: seq<Entry>, m: Seer) {
    forall i :: 0 <= i < |results| && results[i].outcome == Applied ==> StoredIn(log, m, results[i].uid)
  }

  ghost predicate StoredIn(log: seq<Entry>, m: Seer, uid: nat) {
    exists e :: e in log && e.uid == uid && AnswersAs(e.after, m.at.selected, uid, m.seen)
  }

  lemma StoredMore(a: seq<Entry>, b: seq<Entry>, m: Seer, uid: nat)
    requires StoredIn(a, m, uid) || StoredIn(b, m, uid)
    ensures StoredIn(a + b, m, uid)
  {
    hide AnswersAs;
    assert forall e :: e in a + b <==> e in a || e in b;
  }

  lemma StoreSeenAnswers(c: Client, m: Seer, uid: nat, turn: Turn, store: Store)
    requires ValidStore(store) && HonestTurn(store, m.at.selected, uid, turn) && StoreSeen(c, m, uid, turn).result.outcome == Applied
    ensures StoredIn(StoreSeen(c, m, uid, turn).log, m, uid)
  {
    hide StoreCommand, ValidStore, Evolves, DispatchStore, Has, InRanges, AnswersAs;
    StoreIs(m, uid, turn);
    StoredAnswers(turn.arrival, m.at, uid, m.seen);
    var log := DispatchStore(m, uid, turn).0;
    assert log[0] in log;
  }
}
