/** The write protocol of a batch, client and server together
    (bridge/move.go:91-242, bridge/seen.go:30-164, bridge/bridge.go:120-207,
    internal/testkit/faults.go:12-33, 137-184).

    The environment decides, for every UID, what other connections did to the
    mailboxes, how each command ends, what the client library writes while the
    guard is armed, and whether a lost command was applied. */
module TriageProtocol {
  import opened Octets
  import opened Wrappers
  import opened MailStore
  import opened MailServer
  import opened MoveDestination
  import opened DispatchGuard

  datatype Code =
    | InvalidRequest | BoundsExceeded | StaleMessageId | MessageNotFound | ImapProtocol | ImapCommand | Unsupported
    | BridgeUnreachable | CommandTimedOut | OperationCanceled | AdapterClosed | Authentication | OtherCode

  /** Blank is the zero result: neither UID nor outcome. */
  datatype Outcome = Applied | Refused | NotAttempted | Unknown | Blank

  datatype TriageResult = TriageResult(uid: nat, outcome: Outcome, code: Option<Code>)

  // ---- What the environment decides ----

  datatype Probe = Found | Missing | ProbeFails(code: Code)

  datatype Lookup = Lists(listing: seq<Listed>) | ListingFails(code: Code)

  /** How a dispatch ends: what was written while armed; whether the completion
      was read, and if not whether the server applied the command before the
      connection dropped or the answer was held; whether the context had
      expired by then; and the code of a failure that is no server answer. */
  datatype Attempt = Attempt(advertised: bool, writes: seq<bytes>, answered: bool, applied: bool, expired: bool, failure: Code)

  /** One UID's turn; the stores are those other connections left behind when
      the probe was answered and when the command arrived. */
  datatype Turn = Turn(probed: Store, probe: Probe, lookup: Lookup, arrival: Store, attempt: Attempt)

  // ---- The client ----

  datatype Client = Client(session: Option<nat>, next: nat, closed: bool, aborted: set<nat>)

  /** The retained session is live, and session numbers are never reused. */
  ghost predicate ValidClient(c: Client) {
    && (c.session.Some? ==> c.session.value < c.next && c.session.value !in c.aborted)
    && forall s :: s in c.aborted ==> s < c.next
  }

  function Invalidate(c: Client, session: nat): Client {
    if c.session == Some(session) then c.(session := None, aborted := c.aborted + {session}) else c
  }

  /** One command that reached the server, and the store around it. */
  datatype Entry = Entry(session: nat, uid: nat, before: Store, after: Store)

  ghost predicate HadNoEffect(e: Entry) {
    e.after == e.before
  }

  /** What one turn leaves. */
  datatype Turned = Turned(client: Client, store: Store, log: seq<Entry>, result: TriageResult, stop: bool)

  datatype Batch = Batch(client: Client, store: Store, log: seq<Entry>, results: seq<TriageResult>, error: Option<Code>)

  function Failure(a: Attempt, completion: Completion): Option<Code> {
    if !a.answered then Some(a.failure)
    else if completion == Ok then None
    else Some(if a.expired then a.failure else ImapCommand)
  }

  // ---- Move ----

  datatype Mover = Mover(session: nat, enabled: bool, at: Selection, resolver: Resolver)

  function One(uid: nat): seq<Span> {
    [Span(uid, uid)]
  }

  /** The code of a refusal that sent nothing, unless the context had expired. */
  function Unsent(a: Attempt): Option<Code> {
    Some(if a.expired then a.failure else Unsupported)
  }

  /** One guarded UID MOVE: the command that reached the server, if any, and
      the error the client sees. */
  function DispatchMove(m: Mover, uid: nat, target: bytes, turn: Turn): (seq<Entry>, Option<Code>) {
    var a := turn.attempt;
    if !a.advertised then ([], Unsent(a))
    else
      var (guard, sent) := WriteAll(Armed(uid), a.writes);
      var (after, completion) := MoveCommand(turn.arrival, m.enabled, m.at, One(uid), target);
      var log := if sent == [] then []
                 else [Entry(m.session, uid, turn.arrival, if a.answered || a.applied then after else turn.arrival)];
      if guard.tripped then (log, Unsent(a))
      else if sent == [] then ([], Some(a.failure))
      else (log, Failure(a, completion))
  }

  function StoreAfter(log: seq<Entry>, otherwise: Store): Store {
    if log == [] then otherwise else log[|log| - 1].after
  }

  /** What the client makes of the end of a dispatch. */
  function Conclude(c: Client, session: nat, uid: nat, error: Option<Code>): (Client, TriageResult, bool) {
    if error.None? then (c, TriageResult(uid, Applied, None), false)
    else if error.value == Unsupported then (Invalidate(c, session), TriageResult(uid, Refused, error), false)
    else if error.value == ImapCommand then (c, TriageResult(uid, Refused, error), false)
    else (Invalidate(c, session), TriageResult(uid, Unknown, error), true)
  }

  function Abandon(c: Client, session: nat, store: Store, uid: nat, code: Code): Turned {
    Turned(Invalidate(c, session), store, [], TriageResult(uid, NotAttempted, Some(code)), true)
  }

  function MoveUid(c: Client, m: Mover, uid: nat, turn: Turn): (t: Turned)
    ensures t.result.outcome == NotAttempted ==> t.result.code.Some?
  {
    if turn.probe.Missing? then Turned(c, turn.probed, [], TriageResult(uid, Refused, Some(MessageNotFound)), false)
    else if turn.probe.ProbeFails? then Abandon(c, m.session, turn.probed, uid, turn.probe.code)
    else if turn.lookup.ListingFails? then Abandon(c, m.session, turn.probed, uid, turn.lookup.code)
    else
      var target := Resolve(m.resolver, turn.lookup.listing);
      if target.None? then Turned(c, turn.probed, [], TriageResult(uid, Refused, Some(Unsupported)), false)
      else if target.value == [] then Turned(c, turn.probed, [], TriageResult(0, Blank, None), false)
      else
        var (log, error) := DispatchMove(m, uid, target.value, turn);
        var (client, result, stop) := Conclude(c, m.session, uid, error);
        Turned(client, StoreAfter(log, turn.arrival), log, result, stop)
  }

  function AllAs(uids: seq<nat>, outcome: Outcome, code: Option<Code>): (r: seq<TriageResult>)
    ensures |r| == |uids| && forall i :: 0 <= i < |r| ==> r[i] == TriageResult(uids[i], outcome, code)
  {
    seq(|uids|, i requires 0 <= i < |uids| => TriageResult(uids[i], outcome, code))
  }

  /** The batch loop from one UID on; written says whether an earlier UID was
      applied. */
  function MoveBatch(c: Client, m: Mover, uids: seq<nat>, turns: seq<Turn>, store: Store, written: bool): (b: Batch)
    requires |turns| == |uids|
    ensures b.error.Some? ==> b.results == []
    decreases |uids|
  {
    if uids == [] then Batch(c, store, [], [], None)
    else
      var t := MoveUid(c, m, uids[0], turns[0]);
      if t.result.code == Some(Unsupported) then
        Batch(t.client, t.store, t.log, [t.result] + AllAs(uids[1..], Refused, Some(Unsupported)), None)
      else if t.stop && !written && t.result.outcome == NotAttempted then
        Batch(t.client, t.store, t.log, [], t.result.code)
      else if t.stop then
        Batch(t.client, t.store, t.log, [t.result] + AllAs(uids[1..], NotAttempted, None), None)
      else
        var b := MoveBatch(t.client, m, uids[1..], turns[1..], t.store, written || t.result.outcome == Applied);
        Batch(b.client, b.store, t.log + b.log, if b.error.Some? then [] else [t.result] + b.results, b.error)
  }

  // ---- Set seen ----

  datatype Seer = Seer(session: nat, at: Selection, seen: bool)

  /** One UID STORE of \Seen; lost commands may or may not have been applied,
      and a command may fail before it is written. */
  function DispatchStore(m: Seer, uid: nat, turn: Turn): (seq<Entry>, Option<Code>) {
    var a := turn.attempt;
    var (after, completion) := StoreCommand(turn.arrival, m.at, One(uid), m.seen);
    if a.writes == [] then ([], Some(a.failure))
    else ([Entry(m.session, uid, turn.arrival, if a.answered || a.applied then after else turn.arrival)], Failure(a, completion))
  }

  /** A refusal is definite only for a tagged NO or BAD. */
  function ConcludeStore(c: Client, session: nat, uid: nat, error: Option<Code>): (Client, TriageResult, bool) {
    if error.None? then (c, TriageResult(uid, Applied, None), false)
    else if error.value == ImapCommand then (c, TriageResult(uid, Refused, error), false)
    else (Invalidate(c, session), TriageResult(uid, Unknown, error), true)
  }

  function StoreSeen(c: Client, m: Seer, uid: nat, turn: Turn): Turned {
    if turn.probe.Missing? then Turned(c, turn.probed, [], TriageResult(uid, Refused, Some(MessageNotFound)), false)
    else if turn.probe.ProbeFails? then Abandon(c, m.session, turn.probed, uid, turn.probe.code)
    else
      var (log, error) := DispatchStore(m, uid, turn);
      var (client, result, stop) := ConcludeStore(c, m.session, uid, error);
      Turned(client, StoreAfter(log, turn.arrival), log, result, stop)
  }

  function SeenBatch(c: Client, m: Seer, uids: seq<nat>, turns: seq<Turn>, store: Store): (b: Batch)
    requires |turns| == |uids|
    ensures b.error.None?
    decreases |uids|
  {
    if uids == [] then Batch(c, store, [], [], None)
    else
      var t := StoreSeen(c, m, uids[0], turns[0]);
      if t.stop then Batch(t.client, t.store, t.log, [t.result] + AllAs(uids[1..], NotAttempted, None), None)
      else
        var b := SeenBatch(t.client, m, uids[1..], turns[1..], t.store);
        Batch(b.client, b.store, t.log + b.log, [t.result] + b.results, None)
  }

  // ---- What the environment may do ----

  /** A failure that is no server answer is reported as neither of the two
      definite refusals. */
  ghost predicate HonestAttempt(a: Attempt) {
    a.failure != Unsupported && a.failure != ImapCommand
  }

  /** Within one dispatch the client library writes nothing after the MOVE line. */
  ghost predicate OneLine(uid: nat, a: Attempt) {
    !(|a.writes| >= 2 && NativeMoveLine(a.writes[0], Prefix(uid)))
  }

  ghost predicate Has(s: Store, name: bytes, uid: nat) {
    var k := FindMailbox(s, name);
    k < |s| && uid in Uids(s[k].messages)
  }

  /** Other connections evolve the mailboxes, and a UID reported present was. */
  ghost predicate HonestTurn(store: Store, name: bytes, uid: nat, turn: Turn) {
    && ValidStore(turn.probed) && ValidStore(turn.arrival)
    && Evolves(store, turn.probed) && Evolves(turn.probed, turn.arrival)
    && (turn.probe.Found? ==> Has(turn.probed, name, uid))
    && HonestAttempt(turn.attempt)
  }
}
