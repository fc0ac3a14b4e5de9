/** Whole requests on the one retained session, and every run of them
    (bridge/move.go:23-162, bridge/seen.go:30-129, bridge/bridge.go:80-207). */
module TriageRequests {
  import opened Octets
  import opened Sequences
  import opened Wrappers
  import opened MailStore
  import opened MailServer
  import opened MoveDestination
  import opened TriageProtocol
  import opened TriageSafety

  const MAX_NAME: nat := 512
  const MAX_TRIAGE_UIDS: nat := 50

  // ---- Opening the source ----

  datatype Selecting = Selected(uidValidity: nat) | SelectFails(code: Code)

  /** How one attempt to open the source goes: whether a session could be
      opened, whether it can write, how the selection ended, and whether the
      context had expired by then. */
  datatype Try = Try(factory: Option<Code>, writer: bool, select: Selecting, expired: bool)

  datatype Opening = Opened(session: nat) | OpenFails(code: Code)

  predicate InvalidatesSession(code: Code) {
    code in {BridgeUnreachable, CommandTimedOut, OperationCanceled, BoundsExceeded, ImapProtocol}
  }

  /** The retained session, or a new one under a number never used before. */
  function SessionFor(c: Client, factory: Option<Code>): (Client, Opening) {
    if c.closed then (c, OpenFails(AdapterClosed))
    else if c.session.Some? then (c, Opened(c.session.value))
    else if factory.Some? then (c, OpenFails(factory.value))
    else (c.(session := Some(c.next), next := c.next + 1), Opened(c.next))
  }

  /** One selection of the source; the session it used, and the generation. */
  function SelectSource(c: Client, t: Try): (Client, Option<nat>, Selecting) {
    var (d, opening) := SessionFor(c, t.factory);
    if opening.OpenFails? then (d, None, SelectFails(opening.code))
    else if !t.writer then (d, Some(opening.session), SelectFails(ImapProtocol))
    else (d, Some(opening.session), t.select)
  }

  /** Up to two attempts; only a dead session on the first is replaced. */
  function OpenSource(c: Client, first: Try, second: Try, uidValidity: nat): (Client, Opening) {
    var (d, session, select) := SelectSource(c, first);
    if select.Selected? then Generation(d, session, select.uidValidity, uidValidity)
    else if select.code == BridgeUnreachable && !first.expired then
      var e := if session.Some? then Invalidate(d, session.value) else d;
      var (f, again, reselect) := SelectSource(e, second);
      if reselect.Selected? then Generation(f, again, reselect.uidValidity, uidValidity)
      else (DropFailed(f, again, reselect.code), OpenFails(reselect.code))
    else (DropFailed(d, session, select.code), OpenFails(select.code))
  }

  function Generation(c: Client, session: Option<nat>, found: nat, wanted: nat): (Client, Opening) {
    if session.None? then (c, OpenFails(BridgeUnreachable))
    else if found != wanted then (c, OpenFails(StaleMessageId))
    else (c, Opened(session.value))
  }

  function DropFailed(c: Client, session: Option<nat>, code: Code): Client {
    if session.Some? && InvalidatesSession(code) then Invalidate(c, session.value) else c
  }

  // ---- Requests ----

  predicate Repeats(uids: seq<nat>) {
    uids != [] && (uids[0] in uids[1..] || Repeats(uids[1..]))
  }

  function ValidateTriage(mailbox: bytes, uidValidity: nat, uids: seq<nat>): Option<Code> {
    if mailbox == [] || uidValidity == 0 || uids == [] then Some(InvalidRequest)
    else if |mailbox| > MAX_NAME || |uids| > MAX_TRIAGE_UIDS then Some(BoundsExceeded)
    else if 0 in uids || Repeats(uids) then Some(InvalidRequest)
    else None
  }

  /** A move destination; the flags say whether the name is well-formed UTF-8
      and whether it is free of control characters and wildcards. */
  function ValidateDestination(destination: bytes, utf8: bool, plain: bool): Option<Code> {
    if destination == [] || !utf8 then Some(InvalidRequest)
    else if |destination| > MAX_NAME then Some(BoundsExceeded)
    else if !plain then Some(InvalidRequest)
    else None
  }

  datatype Goal = To(destination: bytes, utf8: bool, plain: bool) | Marked(attribute: bytes)

  /** What the environment decides about a whole request. */
  datatype Surroundings = Surroundings(acquired: Option<Code>, first: Try, second: Try, mover: bool, supports: bool, turns: seq<Turn>)

  datatype Request =
    | Moving(mailbox: bytes, uidValidity: nat, uids: seq<nat>, goal: Goal)
    | Marking(mailbox: bytes, uidValidity: nat, uids: seq<nat>, seen: bool)
    | Closing

  function Refusal(r: Request): Option<Code>
    requires !r.Closing?
  {
    var code := ValidateTriage(r.mailbox, r.uidValidity, r.uids);
    if code.Some? then code
    else if r.Moving? && r.goal.To? then ValidateDestination(r.goal.destination, r.goal.utf8, r.goal.plain)
    else None
  }

  predicate SelfMove(r: Request)
    requires r.Moving?
  {
    r.goal.To? && NameMatches(r.mailbox, r.goal.destination)
  }

  function ResolverOf(r: Request): Resolver
    requires r.Moving?
  {
    match r.goal
    case To(destination, _, _) => Exactly(destination)
    case Marked(attribute) => ByAttribute(attribute, r.mailbox)
  }

  function Failed(c: Client, store: Store, code: Code): Batch {
    Batch(c, store, [], [], Some(code))
  }

  /** One request from the client and store it finds. */
  function Handle(c: Client, enabled: bool, r: Request, e: Surroundings, store: Store): Batch
    requires !r.Closing? ==> |e.turns| == |r.uids|
  {
    if r.Closing? then Batch(c.(session := None, closed := true), store, [], [], None)
    else if Refusal(r).Some? then Failed(c, store, Refusal(r).value)
    else if r.Moving? && SelfMove(r) then Batch(c, store, [], AllAs(r.uids, Refused, Some(Unsupported)), None)
    else if e.acquired.Some? then Failed(c, store, e.acquired.value)
    else
      var (d, opening) := OpenSource(c, e.first, e.second, r.uidValidity);
      if opening.OpenFails? then Failed(d, store, opening.code)
      else if r.Marking? then
        SeenBatch(d, Seer(opening.session, Selection(r.mailbox, false), r.seen), r.uids, e.turns, store)
      else if !e.mover then Failed(d, store, ImapProtocol)
      else if !e.supports then Batch(d, store, [], AllAs(r.uids, Refused, Some(Unsupported)), None)
      else MoveBatch(d, Mover(opening.session, enabled, Selection(r.mailbox, false), ResolverOf(r)), r.uids, e.turns, store, false)
  }

  /** The environment keeps to its rules for as long as the request runs. */
  ghost predicate PlausibleRequest(c: Client, enabled: bool, r: Request, e: Surroundings, store: Store) {
    !r.Closing? ==>
      && |e.turns| == |r.uids|
      && var (d, opening) := OpenSource(c, e.first, e.second, r.uidValidity);
         opening.Opened? ==>
           && (r.Marking? ==> PlausibleStores(d, Seer(opening.session, Selection(r.mailbox, false), r.seen), r.uids, e.turns, store))
           && (r.Moving? ==> Plausible(d, Mover(opening.session, enabled, Selection(r.mailbox, false), ResolverOf(r)), r.uids, e.turns, store))
  }

  // ---- One request ----

  lemma SessionForValid(c: Client, factory: Option<Code>)
    requires ValidClient(c)
    ensures var (d, o) := SessionFor(c, factory);
            && ValidClient(d) && d.aborted == c.aborted && c.next <= d.next && d.closed == c.closed
            && (o.Opened? ==> d.session == Some(o.session) && !c.closed)
  {
  }

  /** The session a request writes on is the retained one, and live. */
  lemma OpenSourceValid(c: Client, first: Try, second: Try, uidValidity: nat)
    requires ValidClient(c)
    ensures var (d, o) := OpenSource(c, first, second, uidValidity);
            && ValidClient(d) && c.aborted <= d.aborted && c.next <= d.next && d.closed == c.closed
            && (o.Opened? ==> d.session == Some(o.session) && !c.closed)
  {
    SessionForValid(c, first.factory);
    var (d, session, select) := SelectSource(c, first);
    var e := if session.Some? then Invalidate(d, session.value) else d;
    SessionForValid(e, second.factory);
  }

  lemma {:induction false} RepeatsIff(uids: seq<nat>)
    ensures Repeats(uids) <==> !Distinct(uids)
    decreases |uids|
  {
    if uids != [] {
      var tail := uids[1..];
      RepeatsIff(tail);
      assert forall i :: 0 <= i < |tail| ==> tail[i] == uids[i + 1];
      if uids[0] in tail {
        var k :| 0 <= k < |tail| && tail[k] == uids[0];
        assert uids[0] == uids[k + 1];
      } else {
        assert forall j :: 0 < j < |uids| ==> uids[j] == tail[j - 1];
      }
    }
  }

  /** What any request may claim. A whole-request error means that no command
      of it changed a mailbox. */
  ghost predicate SoundRequest(c: Client, r: Request, store: Store, b: Batch) {
    && ValidStore(b.store) && Evolves(store, b.store) && ValidClient(b.client)
    && c.aborted <= b.client.aborted && (c.closed ==> b.client.closed)
    && (forall e :: e in b.log ==> e.session !in c.aborted && !c.closed)
    && (b.error.Some? ==> b.results == [] && forall e :: e in b.log ==> HadNoEffect(e))
    && (Uncertain(b.results) ==> forall e :: e in b.log ==> e.session in b.client.aborted)
    && (r.Closing? ==> b.log == [] && b.client.closed)
    && (!r.Closing? ==>
          && Sub(LogUids(b.log), r.uids) && Distinct(LogUids(b.log))
          && (b.error.None? ==> SoundResults(b.results, r.uids, b.log)))
  }

  lemma NothingSent(c: Client, d: Client, r: Request, store: Store, b: Batch)
    requires ValidClient(c) && ValidStore(store) && ValidClient(d) && c.aborted <= d.aborted && d.closed == c.closed && !r.Closing?
    requires b.client == d && b.store == store && b.log == []
    requires (b.error.Some? && b.results == []) || (b.error.None? && b.results == AllAs(r.uids, Refused, Some(Unsupported)))
    ensures SoundRequest(c, r, store, b)
  {
    hide ValidStore, Evolves, ValidClient;
    EvolvesSame(store);
    SubNone(r.uids);
  }

  lemma BatchIsRequest(c: Client, d: Client, session: nat, r: Request, store: Store, written: bool, b: Batch)
    requires ValidClient(c) && ValidClient(d) && c.aborted <= d.aborted && d.closed == c.closed && !c.closed
    requires d.session == Some(session) && !r.Closing? && Distinct(r.uids) && SoundBatch(d, session, r.uids, store, written, b)
    ensures SoundRequest(c, r, store, b)
  {
    hide ValidStore, Evolves, Sub, HadNoEffect, SoundResults, Distinct, Uncertain;
    SubDistinct(LogUids(b.log), r.uids);
  }

  lemma HandleSound(c: Client, enabled: bool, r: Request, e: Surroundings, store: Store)
    requires ValidClient(c) && ValidStore(store) && PlausibleRequest(c, enabled, r, e, store)
    ensures SoundRequest(c, r, store, Handle(c, enabled, r, e, store))
  {
    hide OpenSource, SeenBatch, MoveBatch, ValidStore, Evolves, Plausible, PlausibleStores, SelfMove, SoundBatch, Sub;
    var b := Handle(c, enabled, r, e, store);
    if r.Closing? {
      EvolvesSame(store);
    } else if Refusal(r).Some? || (r.Moving? && SelfMove(r)) || e.acquired.Some? {
      NothingSent(c, c, r, store, b);
    } else {
      var (d, opening) := OpenSource(c, e.first, e.second, r.uidValidity);
      OpenSourceValid(c, e.first, e.second, r.uidValidity);
      RepeatsIff(r.uids);
      if opening.OpenFails? || (r.Moving? && (!e.mover || !e.supports)) {
        NothingSent(c, d, r, store, b);
      } else if r.Marking? {
        var m := Seer(opening.session, Selection(r.mailbox, false), r.seen);
        SeenBatchSound(d, m, r.uids, e.turns, store);
        BatchIsRequest(c, d, opening.session, r, store, true, b);
      } else {
        var m := Mover(opening.session, enabled, Selection(r.mailbox, false), ResolverOf(r));
        MoveBatchSound(d, m, r.uids, e.turns, store, false);
        BatchIsRequest(c, d, opening.session, r, store, false, b);
      }
    }
  }

  /** A mailbox that a command of the request changed was changed by a command
      for a UID reported applied or unknown. */
  lemma EffectsAreReported(r: Request, b: Batch, c: Client, store: Store, e: Entry)
    requires !r.Closing? && SoundRequest(c, r, store, b) && e in b.log && !HadNoEffect(e)
    ensures b.error.None?
    ensures exists i :: 0 <= i < |r.uids| && r.uids[i] == e.uid && b.results[i].outcome in {Applied, Unknown}
  {
    hide ValidStore, Evolves, ValidClient, Sub, HadNoEffect;
    SubIn(LogUids(b.log), r.uids);
    var k :| 0 <= k < |b.log| && b.log[k] == e;
    assert LogUids(b.log)[k] in r.uids;
    var i :| 0 <= i < |r.uids| && r.uids[i] == e.uid;
    assert SoundResult(b.results[i], r.uids[i], b.log);
    assert b.results[i].outcome in {Applied, Unknown};
  }

  // ---- Every run ----

  datatype Demand = Demand(request: Request, surroundings: Surroundings)

  function HandleAll(c: Client, enabled: bool, demands: seq<Demand>, store: Store): seq<Batch>
    requires forall i :: 0 <= i < |demands| ==> demands[i].request.Closing? || |demands[i].surroundings.turns| == |demands[i].request.uids|
    decreases |demands|
  {
    if demands == [] then []
    else
      var b := Handle(c, enabled, demands[0].request, demands[0].surroundings, store);
      [b] + HandleAll(b.client, enabled, demands[1..], b.store)
  }

  ghost predicate PlausibleRun(c: Client, enabled: bool, demands: seq<Demand>, store: Store)
    decreases |demands|
  {
    demands == [] ||
    (&& PlausibleRequest(c, enabled, demands[0].request, demands[0].surroundings, store)
     && var b := Handle(c, enabled, demands[0].request, demands[0].surroundings, store);
        PlausibleRun(b.client, enabled, demands[1..], b.store))
  }

  ghost predicate WellSized(demands: seq<Demand>) {
    forall i :: 0 <= i < |demands| ==> demands[i].request.Closing? || |demands[i].surroundings.turns| == |demands[i].request.uids|
  }

  /** Once aborted, a session carries no command of any later request; once
      closed, the client sends nothing. */
  lemma {:induction false} AbortedStaysUnused(c: Client, enabled: bool, demands: seq<Demand>, store: Store, k: nat, e: Entry)
    requires ValidClient(c) && ValidStore(store) && WellSized(demands) && PlausibleRun(c, enabled, demands, store)
    requires k < |HandleAll(c, enabled, demands, store)| && e in HandleAll(c, enabled, demands, store)[k].log
    ensures e.session !in c.aborted && !c.closed
    decreases |demands|
  {
    hide Handle, ValidStore, Evolves, ValidClient, PlausibleRequest, Sub;
    if demands != [] {
      var b := Handle(c, enabled, demands[0].request, demands[0].surroundings, store);
      HandleSound(c, enabled, demands[0].request, demands[0].surroundings, store);
      if k > 0 {
        AbortedStaysUnused(b.client, enabled, demands[1..], b.store, k - 1, e);
      }
    }
  }

  /** Over every run of requests, a session whose outcome was left unknown is
      never written on again. */
  lemma {:induction false} UnknownEndsItsSession(c: Client, enabled: bool, demands: seq<Demand>, store: Store, i: nat, j: nat, e: Entry, f: Entry)
    requires ValidClient(c) && ValidStore(store) && WellSized(demands) && PlausibleRun(c, enabled, demands, store)
    requires i < j < |HandleAll(c, enabled, demands, store)|
    requires Uncertain(HandleAll(c, enabled, demands, store)[i].results)
    requires e in HandleAll(c, enabled, demands, store)[i].log && f in HandleAll(c, enabled, demands, store)[j].log
    ensures e.session != f.session
    decreases |demands|
  {
    hide Handle, ValidStore, Evolves, ValidClient, PlausibleRequest, Sub, Uncertain;
    if demands != [] {
      var b := Handle(c, enabled, demands[0].request, demands[0].surroundings, store);
      HandleSound(c, enabled, demands[0].request, demands[0].surroundings, store);
      if i > 0 {
        UnknownEndsItsSession(b.client, enabled, demands[1..], b.store, i - 1, j - 1, e, f);
      } else {
        AbortedStaysUnused(b.client, enabled, demands[1..], b.store, j - 1, f);
      }
    }
  }
}
