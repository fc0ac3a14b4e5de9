/** One dedicated structure read: the stages of its session around the
    quarantine (bridge/structure_session.go:245-348). */
module StructureSession {
  import opened Wrappers
  import opened FetchScan
  import opened QuarantineMachine
  import opened QuarantineRuns
  import opened QuarantineSafety
  import opened QuarantineLifetime
  import opened StructureQuarantine

  datatype Stage = Connected | LoggedIn | Selected | Dispatched | Closed

  /** A fetch and an abort each have two critical sections: asked says that a
      fetch has moved the stage on and not begun its dispatch yet, and ending
      that an abort has closed the session and not ended its reader yet. */
  datatype Session = Session(stage: Stage, asked: bool, ending: Option<bool>, reader: Machine)

  /** What happens to a session: the critical sections of its own calls, and
      meanwhile source octets, source failures and reads of the decoder. */
  datatype Call =
    | Login | Examine | FetchStructure | Proceed | Logout | GiveUp(canceled: bool) | EndReader | Wire(e: Event)

  /** What only the source and the decoder do. */
  predicate Outside(e: Event) {
    e.Input? || e.SourceFailed? || e.Take?
  }

  predicate Allowed(c: Call) {
    c.Wire? ==> Outside(c.e)
  }

  /** The session after a section, its reader as before, and what the section
      does to the reader. */
  function Perform(s: Session, c: Call): (Session, seq<Event>) {
    match c
    case Login => (if s.stage == Connected then s.(stage := LoggedIn) else s, [])
    case Examine => (if s.stage == LoggedIn then s.(stage := Selected) else s, [])
    case FetchStructure => (if s.stage == Selected then s.(stage := Dispatched, asked := true) else s, [])
    case Proceed => (s.(asked := false), if s.asked then [Begin] else [])
    case Logout => (s.(stage := Closed), [])
    case GiveUp(canceled) => (if s.stage == Closed then s else s.(stage := Closed, ending := Some(canceled)), [])
    case EndReader => (s.(ending := None), if s.ending.Some? then [Abort(s.ending.value)] else [])
    case Wire(e) => (s, [e])
  }

  function Events(s: Session, c: Call): seq<Event> {
    Perform(s, c).1
  }

  function After(s: Session, c: Call): (r: Session)
    requires Ok(s.reader)
    ensures Ok(r.reader)
  {
    Perform(s, c).0.(reader := Play(s.reader, Events(s, c)))
  }

  /** A session run and the events it put the reader through. */
  function RunCalls(s: Session, calls: seq<Call>): (r: (Session, seq<Event>))
    requires Ok(s.reader)
    ensures Ok(r.0.reader)
    decreases |calls|
  {
    if calls == [] then (s, [])
    else
      var (last, es) := RunCalls(After(s, calls[0]), calls[1..]);
      (last, Events(s, calls[0]) + es)
  }

  function Rank(stage: Stage): nat {
    match stage
    case Connected => 0
    case LoggedIn => 1
    case Selected => 2
    case Dispatched => 3
    case Closed => 4
  }

  /** The reader of a session goes through exactly the events of its calls. */
  lemma {:induction false} ReaderPlays(s: Session, calls: seq<Call>)
    requires Ok(s.reader)
    ensures RunCalls(s, calls).0.reader == Play(s.reader, RunCalls(s, calls).1)
    decreases |calls|
  {
    hide Play, Ok, Step;
    if calls == [] {
      PlayNothing(s.reader);
    } else {
      var next := After(s, calls[0]);
      ReaderPlays(next, calls[1..]);
      PlayConcat(s.reader, Events(s, calls[0]), RunCalls(next, calls[1..]).1);
    }
  }

  lemma {:induction false} DispatchesConcat(a: seq<Event>, b: seq<Event>)
    ensures Dispatches(a + b) == Dispatches(a) + Dispatches(b)
  {
    if a == [] {
      assert a + b == b;
    } else {
      assert (a + b)[1..] == a[1..] + b;
      DispatchesConcat(a[1..], b);
    }
  }

  /** A dispatch is asked for only at or past its stage. */
  predicate Asking(s: Session) {
    s.asked ==> Rank(s.stage) >= 3
  }

  /** Whether a dispatch may still come. */
  predicate MayDispatch(s: Session) {
    s.asked || Rank(s.stage) < 3
  }

  /** A call dispatches exactly when it begins the dispatch asked for. */
  lemma PerformDispatches(s: Session, c: Call)
    requires Asking(s) && Allowed(c)
    ensures var (t, es) := Perform(s, c);
            && Dispatches(es) == (if c == Proceed && s.asked then 1 else 0)
            && Rank(s.stage) <= Rank(t.stage) && (t.asked ==> Rank(t.stage) >= 3)
            && (Dispatches(es) == 1 ==> Rank(t.stage) >= 3 && !t.asked)
            && (Rank(s.stage) >= 3 && !s.asked ==> !t.asked)
  {
    var es := Events(s, c);
    if |es| == 1 {
      assert es[1..] == [];
    }
  }

  /** From a session that may still dispatch at most one dispatch follows, and
      none from any other. */
  lemma {:induction false} OneDispatch(s: Session, calls: seq<Call>)
    requires Ok(s.reader) && Asking(s) && forall i :: 0 <= i < |calls| ==> Allowed(calls[i])
    ensures Dispatches(RunCalls(s, calls).1) <= if MayDispatch(s) then 1 else 0
    decreases |calls|
  {
    hide Play, Ok, Step, Perform;
    if calls != [] {
      var next := After(s, calls[0]);
      PerformDispatches(s, calls[0]);
      OneDispatch(next, calls[1..]);
      DispatchesConcat(Events(s, calls[0]), RunCalls(next, calls[1..]).1);
    }
  }

  /** The calls still wanted before and at a dispatch. */
  function Wanted(s: Session): seq<Call> {
    if s.asked then [Proceed]
    else
      match s.stage
      case Connected => [Login, Examine, FetchStructure, Proceed]
      case LoggedIn => [Examine, FetchStructure, Proceed]
      case _ => [FetchStructure, Proceed]
  }

  lemma OnlyProceed(s: Session)
    requires s.asked
    ensures Wanted(s)[0] == Proceed && Wanted(s)[1..] == []
  {
  }

  predicate Closes(c: Call) {
    c.Logout? || c.GiveUp?
  }

  /** The wanted calls occur in that order, and nothing closes the session
      before the fetch has asked for its dispatch. */
  predicate OccurOpen(wanted: seq<Call>, calls: seq<Call>) {
    wanted == [] ||
    (calls != []
     && ((calls[0] == wanted[0] && OccurOpen(wanted[1..], calls[1..]))
         || (!(Closes(calls[0]) && |wanted| > 1) && OccurOpen(wanted, calls[1..]))))
  }

  /** What occurs with its first call still occurs without it. */
  lemma {:induction false} OccurWithout(wanted: seq<Call>, calls: seq<Call>)
    requires wanted != [] && OccurOpen(wanted, calls) && forall c :: c in wanted ==> !Closes(c)
    ensures OccurOpen(wanted[1..], calls)
    decreases |calls|
  {
    if wanted[1..] != [] {
      if calls[0] == wanted[0] && OccurOpen(wanted[1..], calls[1..]) {
        assert !Closes(wanted[0]);
      } else {
        OccurWithout(wanted, calls[1..]);
      }
    }
  }

  /** What the next call leaves to be wanted. */
  lemma OccurNext(s: Session, c: Call, later: seq<Call>)
    requires Ok(s.reader) && Asking(s) && MayDispatch(s) && !(c == Proceed && s.asked)
    ensures var next := After(s, c);
            OccurOpen(Wanted(s), [c] + later) <==> MayDispatch(next) && OccurOpen(Wanted(next), later)
  {
    hide Play, Ok, Step;
    var calls, wanted, next := [c] + later, Wanted(s), After(s, c);
    assert calls[1..] == later;
    if wanted[0] == c {
      assert Wanted(next) == wanted[1..];
      if OccurOpen(wanted, later) {
        OccurWithout(wanted, later);
      }
    } else if Closes(c) {
      assert MayDispatch(next) <==> |wanted| == 1;
    } else {
      assert Wanted(next) == wanted && MayDispatch(next);
    }
  }

  /** A dispatch comes exactly when login, examination and fetch follow one
      another before anything closes the session, and the fetch then goes on. */
  lemma {:induction false} DispatchIff(s: Session, calls: seq<Call>)
    requires Ok(s.reader) && Asking(s) && (forall i :: 0 <= i < |calls| ==> Allowed(calls[i]))
    ensures Dispatches(RunCalls(s, calls).1) == if MayDispatch(s) && OccurOpen(Wanted(s), calls) then 1 else 0
    decreases |calls|
  {
    hide Play, Ok, Step, Perform, Wanted;
    OneDispatch(s, calls);
    if calls == [] {
      StillWanted(s);
    } else if MayDispatch(s) {
      var c, tail := calls[0], calls[1..];
      var next := After(s, c);
      PerformDispatches(s, c);
      DispatchesConcat(Events(s, c), RunCalls(next, tail).1);
      assert calls == [c] + tail;
      if c == Proceed && s.asked {
        OnlyProceed(s);
        OneDispatch(next, tail);
      } else {
        DispatchIff(next, tail);
        OccurNext(s, c, tail);
      }
    }
  }

  lemma StillWanted(s: Session)
    ensures Wanted(s) != []
  {
  }

  /** After a close a dispatch still comes exactly when the fetch had asked for
      it before the close and then goes on. */
  lemma {:induction false} LateDispatchIff(s: Session, calls: seq<Call>)
    requires Ok(s.reader) && s.stage == Closed && forall i :: 0 <= i < |calls| ==> Allowed(calls[i])
    ensures Dispatches(RunCalls(s, calls).1) == if s.asked && Proceed in calls then 1 else 0
    decreases |calls|
  {
    hide Play, Ok, Step;
    if calls != [] {
      var next := After(s, calls[0]);
      PerformDispatches(s, calls[0]);
      LateDispatchIff(next, calls[1..]);
      DispatchesConcat(Events(s, calls[0]), RunCalls(next, calls[1..]).1);
    }
  }

  /** Once an abort has ended the reader nothing more is admitted and no byte is
      added to what may be returned, even when a dispatch comes late. */
  lemma AbortIsFinal(s: Session, calls: seq<Call>)
    requires Ok(s.reader) && s.ending.Some?
    ensures var r := RunCalls(s, [EndReader] + calls).0.reader;
            && r.terminal.Some? && r.log == s.reader.log
            && r.out + r.pending == s.reader.out + s.reader.pending
  {
    hide Play, Ok, Step, Perform;
    var all := [EndReader] + calls;
    assert all[0] == EndReader && all[1..] == calls;
    var next := After(s, EndReader);
    AbortEnds(s);
    ReaderPlays(next, calls);
    EndedForever(next.reader, RunCalls(next, calls).1);
  }

  lemma AbortEnds(s: Session)
    requires Ok(s.reader) && s.ending.Some?
    ensures var r := After(s, EndReader).reader;
            && r.terminal.Some? && r.log == s.reader.log
            && r.out + r.pending == s.reader.out + s.reader.pending
  {
    PlayOne(s.reader, Abort(s.ending.value));
  }

  /** An abort that closes the session ends its reader exactly when its second
      section follows, whatever comes in between. */
  lemma {:induction false} EndingStays(s: Session, calls: seq<Call>)
    requires Ok(s.reader) && s.stage == Closed
    ensures var t := RunCalls(s, calls).0;
            t.stage == Closed && t.ending == if EndReader in calls then None else s.ending
    decreases |calls|
  {
    hide Play, Ok, Step;
    if calls != [] {
      EndingStays(After(s, calls[0]), calls[1..]);
    }
  }

  /** Over every run of a session: a dispatch comes exactly when its calls come in
      order before any close; and the structure is released at most once, and
      only when there was a dispatch. */
  lemma SessionSafety(selected: nat, calls: seq<Call>)
    requires forall i :: 0 <= i < |calls| ==> Allowed(calls[i])
    ensures var (s, es) := RunCalls(Session(Connected, false, None, Initial(selected)), calls);
            && s.reader == Play(Initial(selected), es)
            && Dispatches(es) == (if OccurOpen([Login, Examine, FetchStructure, Proceed], calls) then 1 else 0)
            && Structures(s.reader.log) <= Dispatches(es)
            && s.reader.out + s.reader.pending == Released(s.reader.log)
  {
    hide Play, Ok, Step, Released, Structures, OccurOpen;
    var start := Session(Connected, false, None, Initial(selected));
    InitialOk(selected);
    ReaderPlays(start, calls);
    DispatchIff(start, calls);
    var es := RunCalls(start, calls).1;
    ReleaseSafety(selected, es);
    if Dispatches(es) == 0 {
      StructureOnlyAfterDispatch(selected, es, []);
    }
  }

  lemma InitialOk(selected: nat)
    ensures Ok(Initial(selected))
  {
  }

  lemma {:induction false} RunCallsConcat(s: Session, a: seq<Call>, b: seq<Call>)
    requires Ok(s.reader)
    ensures RunCalls(s, a + b).0 == RunCalls(RunCalls(s, a).0, b).0
    decreases |a|
  {
    hide Play, Ok, Step, Perform;
    if a == [] {
      assert a + b == b;
    } else {
      assert (a + b)[0] == a[0] && (a + b)[1..] == a[1..] + b;
      RunCallsConcat(After(s, a[0]), a[1..], b);
    }
  }

  lemma RunCall(s: Session, c: Call)
    requires Ok(s.reader)
    ensures RunCalls(s, [c]).0 == After(s, c)
  {
    hide Play, Ok, Step, Perform;
    assert [c][1..] == [];
  }

  /** The session object; asked and ending stand for a fetch and an abort that
      are between their two sections. */
  class DedicatedSession {
    const quarantine: Quarantine
    var stage: Stage
    var asked: bool
    var ending: Option<bool>

    ghost function State(): Session
      reads this, quarantine
      requires quarantine.Valid()
    {
      Session(stage, asked, ending, quarantine.Model())
    }

    constructor (reader: Quarantine)
      ensures quarantine == reader && stage == Connected && !asked && ending.None?
    {
      quarantine, stage, asked, ending := reader, Connected, false, None;
    }

    /** Moves from one stage to the next, or refuses the call. */
    method Advance(from: Stage, to: Stage) returns (err: Option<Code>)
      modifies this`stage
      ensures err == if old(stage) == from then None else Some(Protocol)
      ensures stage == if old(stage) == from then to else old(stage)
    {
      if stage != from {
        return Some(Protocol);
      }
      stage := to;
      return None;
    }

    /** Whether this call is the one that ends the session. */
    method Finish() returns (ended: bool)
      modifies this`stage
      ensures stage == Closed && (ended <==> old(stage) != Closed)
    {
      if stage == Closed {
        return false;
      }
      stage := Closed;
      ended := true;
    }

    /** The first section of a fetch. */
    method AskDispatch() returns (err: Option<Code>)
      requires quarantine.Valid()
      modifies this`stage, this`asked
      ensures State() == After(old(State()), FetchStructure)
      ensures err.None? <==> old(stage) == Selected
    {
      PlayNothing(quarantine.Model());
      err := Advance(Selected, Dispatched);
      asked := asked || err.None?;
    }

    /** The second section of a fetch, which is the session's only dispatch. */
    method ProceedDispatch() returns (err: Option<Code>)
      requires quarantine.Valid()
      modifies this`asked, quarantine
      ensures quarantine.Valid() && State() == After(old(State()), Proceed)
    {
      hide Step, Ok;
      PlayNothing(quarantine.Model());
      PlayOne(quarantine.Model(), Begin);
      err := None;
      if asked {
        asked := false;
        err := quarantine.BeginDispatch();
      }
    }

    /** The first section of an abort. */
    method AskAbort(canceled: bool) returns (ended: bool)
      requires quarantine.Valid()
      modifies this`stage, this`ending
      ensures State() == After(old(State()), GiveUp(canceled)) && (ended <==> old(stage) != Closed)
    {
      PlayNothing(quarantine.Model());
      ended := Finish();
      if ended {
        ending := Some(canceled);
      }
    }

    /** The second section of an abort. */
    method ProceedAbort()
      requires quarantine.Valid()
      modifies this`ending, quarantine
      ensures quarantine.Valid() && State() == After(old(State()), EndReader)
    {
      hide Step, Ok;
      PlayNothing(quarantine.Model());
      if ending.Some? {
        PlayOne(quarantine.Model(), Abort(ending.value));
        var _ := quarantine.AbortWith(ending.value);
        ending := None;
      }
    }

    /** One section of any caller, or one step of the source or the decoder. */
    method Section(c: Call)
      requires quarantine.Valid() && Allowed(c)
      modifies this, quarantine
      ensures quarantine.Valid() && State() == After(old(State()), c)
    {
      hide Step, Ok, Play;
      PlayNothing(quarantine.Model());
      match c {
        case Login => var _ := Advance(Connected, LoggedIn);
        case Examine => var _ := Advance(LoggedIn, Selected);
        case FetchStructure => var _ := AskDispatch();
        case Proceed => var _ := ProceedDispatch();
        case Logout => var _ := Finish();
        case GiveUp(canceled) => var _ := AskAbort(canceled);
        case EndReader => ProceedAbort();
        case Wire(e) =>
          PlayOne(quarantine.Model(), e);
          quarantine.Happen(e);
      }
    }

    method Sections(calls: seq<Call>)
      requires quarantine.Valid() && forall i :: 0 <= i < |calls| ==> Allowed(calls[i])
      modifies this, quarantine
      ensures quarantine.Valid() && State() == RunCalls(old(State()), calls).0
    {
      hide Step, Ok, Play, After;
      ghost var before := State();
      RunNothing(before);
      assert calls[..0] == [];
      for i := 0 to |calls|
        invariant quarantine.Valid() && State() == RunCalls(before, calls[..i]).0
      {
        assert calls[..i + 1] == calls[..i] + [calls[i]];
        RunCallsConcat(before, calls[..i], [calls[i]]);
        RunCall(State(), calls[i]);
        Section(calls[i]);
      }
      assert calls[..|calls|] == calls;
    }

    /** The session's only dispatch; a second call never dispatches. Other
        callers, the source and the decoder go on between its two sections. */
    method FetchOnce(meanwhile: seq<Call>) returns (err: Option<Code>)
      requires quarantine.Valid() && forall i :: 0 <= i < |meanwhile| ==> Allowed(meanwhile[i]) && meanwhile[i] != Proceed
      modifies this, quarantine
      ensures quarantine.Valid()
      ensures State() == RunCalls(old(State()), if old(stage) == Selected then [FetchStructure] + meanwhile + [Proceed] else [FetchStructure]).0
      ensures err.None? ==> old(stage) == Selected
    {
      hide Step, Ok, Play, RunCalls, After;
      ghost var before := State();
      RunCall(before, FetchStructure);
      err := AskDispatch();
      if err.Some? {
        return;
      }
      RunAround(before, FetchStructure, meanwhile, Proceed);
      Sections(meanwhile);
      RunCall(State(), Proceed);
      err := ProceedDispatch();
    }

    /** Ends the session and its reader, unless it had ended. Other callers, the
        source and the decoder go on between its two sections. */
    method AbortSession(canceled: bool, meanwhile: seq<Call>)
      requires quarantine.Valid() && forall i :: 0 <= i < |meanwhile| ==> Allowed(meanwhile[i]) && meanwhile[i] != EndReader
      modifies this, quarantine
      ensures quarantine.Valid()
      ensures State() == RunCalls(old(State()), if old(stage) == Closed then [GiveUp(canceled)] else [GiveUp(canceled)] + meanwhile + [EndReader]).0
    {
      hide Step, Ok, Play, RunCalls, After;
      ghost var before := State();
      RunCall(before, GiveUp(canceled));
      var ended := AskAbort(canceled);
      if !ended {
        return;
      }
      RunAround(before, GiveUp(canceled), meanwhile, EndReader);
      Sections(meanwhile);
      RunCall(State(), EndReader);
      ProceedAbort();
    }
  }

  lemma RunNothing(s: Session)
    requires Ok(s.reader)
    ensures RunCalls(s, []).0 == s
  {
  }

  lemma RunAround(s: Session, first: Call, calls: seq<Call>, last: Call)
    requires Ok(s.reader)
    ensures RunCalls(s, [first] + calls + [last]).0 == RunCalls(RunCalls(RunCalls(s, [first]).0, calls).0, [last]).0
  {
    hide Ok, RunCalls;
    RunCallsConcat(s, [first] + calls, [last]);
    RunCallsConcat(s, [first], calls);
  }
}
