/** Facts about the whole lifetime of one quarantine: what it keeps of its
    input, the finality of its end, and the one dispatch. */
module QuarantineLifetime {
  import opened Octets
  import opened Wrappers
  import opened QuarantineLexis
  import opened FetchScan
  import opened QuarantineMachine
  import opened QuarantineRuns
  import opened QuarantineSafety
  import opened QuarantineExact

  /** The source octets of a run, in order. */
  function InputOf(es: seq<Event>): bytes {
    if es == [] then [] else (if es[0].Input? then [es[0].b] else []) + InputOf(es[1..])
  }

  lemma CallStep(m: Machine, e: Event)
    requires Ok(m) && !e.Input?
    ensures var r := Step(m, e);
            && r.log == m.log
            && (if m.terminal.None? && r.terminal.None? then r.frame == m.frame else r.frame == [])
  {
    hide Feed;
  }

  /** Over every run, the admitted frames and the frame in progress are the
      source input itself, in order; once ended, the admitted frames are a
      prefix of it. */
  lemma {:induction false} FramesAreTheInput(m: Machine, es: seq<Event>)
    requires Ok(m)
    ensures var r := Play(m, es);
            var before := Flatten(m.log) + m.frame;
            if r.terminal.None? then Flatten(r.log) + r.frame == before + InputOf(es)
            else Flatten(r.log) <= before + InputOf(es)
    decreases |es|
  {
    hide Flatten, Step;
    var before := Flatten(m.log) + m.frame;
    if es == [] {
      assert before + InputOf(es) == before;
    } else {
      var m1, rest := Step(m, es[0]), es[1..];
      FramesAreTheInput(m1, rest);
      assert InputOf(es) == (if es[0].Input? then [es[0].b] else []) + InputOf(rest);
      if m.terminal.Some? {
        EndedStep(m, es[0]);
        EndedForever(m1, rest);
      } else {
        RunningStep(m, es[0]);
        if m1.terminal.None? {
          var one := if es[0].Input? then [es[0].b] else [];
          assert before + InputOf(es) == before + one + InputOf(rest);
        } else {
          EndedForever(m1, rest);
        }
      }
    }
  }

  /** One step of a running machine keeps its octet, or ends it with the log it had. */
  lemma RunningStep(m: Machine, e: Event)
    requires Ok(m) && m.terminal.None?
    ensures var r := Step(m, e);
            if r.terminal.None? then
              Flatten(r.log) + r.frame == Flatten(m.log) + m.frame + (if e.Input? then [e.b] else [])
            else r.log == m.log && r.frame == []
  {
    hide Feed, Flatten;
    if e.Input? {
      FeedAccounts(m, e.b);
    } else {
      CallStep(m, e);
      assert Flatten(m.log) + m.frame + [] == Flatten(m.log) + m.frame;
    }
  }

  lemma EndedStep(m: Machine, e: Event)
    requires Ok(m) && m.terminal.Some?
    ensures var r := Step(m, e);
            && r.terminal == m.terminal && r.log == m.log && r.frame == [] && r.dispatch == m.dispatch
            && r.out + r.pending == m.out + m.pending
            && (!e.Take? ==> r == m)
  {
    if e.Take? {
      var count := if e.limit < |m.pending| then e.limit else |m.pending|;
      assert m.out + m.pending == m.out + m.pending[..count] + m.pending[count..];
    }
  }

  /** An end is final: no later input, dispatch or abort changes the terminal
      error, admits a frame, or adds a byte to what may still be returned. */
  lemma {:induction false} EndedForever(m: Machine, es: seq<Event>)
    requires Ok(m) && m.terminal.Some?
    ensures var r := Play(m, es);
            && r.terminal == m.terminal && r.log == m.log && r.frame == []
            && r.out + r.pending == m.out + m.pending
    decreases |es|
  {
    hide Step;
    if es != [] {
      EndedStep(m, es[0]);
      EndedForever(Step(m, es[0]), es[1..]);
    }
  }

  // ---- The end ----

  /** The event at k is the one that ends the run. */
  ghost predicate EndedBy(m: Machine, es: seq<Event>, k: nat)
    requires Ok(m)
  {
    k < |es| && Play(m, es[..k]).terminal.None? && Play(m, es[..k + 1]).terminal.Some?
  }

  lemma ScanCode(scan: Scan, b: byte)
    requires Valid(scan) && ScanByte(scan, b).Refused?
    ensures ScanByte(scan, b).code in {Protocol, BoundsExceeded}
  {
  }

  /** An octet ends the run only by refusing it. */
  lemma OctetCode(m: Machine, b: byte)
    requires Ok(m) && m.terminal.None? && Feed(m, b).terminal.Some?
    ensures Feed(m, b).terminal.value in {Protocol, BoundsExceeded}
  {
    hide ScanByte, ControlLine, JudgePrefix, Valid, Feasible, LineRoom, Need, Closing;
    if m.mode.InFetch? && ScanByte(m.mode.scan, b).Refused? {
      ScanCode(m.mode.scan, b);
    }
  }

  lemma EventCode(m: Machine, e: Event)
    requires Ok(m) && m.terminal.None?
    ensures var code := Step(m, e).terminal;
            && (code == Some(Canceled) <==> e in {Abort(true), SourceFailed(SourceCanceled)})
            && (code == Some(TimedOut) <==> e in {Abort(false), SourceFailed(SourceDeadline)})
            && (code == Some(Unreachable) <==> e == SourceFailed(SourceOther) && m.frame == [])
            && (e == Begin && code.Some? ==> code == Some(Protocol) && m.dispatch != Idle)
  {
    hide Feed;
    if e.Input? && Feed(m, e.b).terminal.Some? {
      OctetCode(m, e.b);
    }
  }

  lemma {:induction false} EndFound(m: Machine, es: seq<Event>) returns (k: nat)
    requires Ok(m) && m.terminal.None? && Play(m, es).terminal.Some?
    ensures EndedBy(m, es, k)
    decreases |es|
  {
    hide Step;
    var last := es[..|es| - 1];
    assert es[..|es|] == es;
    if Play(m, last).terminal.None? {
      k := |es| - 1;
    } else {
      k := EndFound(m, last);
      assert last[..k] == es[..k] && last[..k + 1] == es[..k + 1];
    }
  }

  /** Whatever code a run ends with, one event ended it, and the code says which:
      a cancelation or a deadline of the caller or of the source, or a source
      that failed in another way just when all its octets stood in whole
      admitted frames. Every other end is a refusal. */
  lemma EndSaysWhy(selected: nat, es: seq<Event>) returns (k: nat)
    requires Play(Initial(selected), es).terminal.Some?
    ensures EndedBy(Initial(selected), es, k)
    ensures var code := Play(Initial(selected), es).terminal.value;
            var before := Play(Initial(selected), es[..k]);
            && (code == Canceled <==> es[k] in {Abort(true), SourceFailed(SourceCanceled)})
            && (code == TimedOut <==> es[k] in {Abort(false), SourceFailed(SourceDeadline)})
            && (code == Unreachable <==> es[k] == SourceFailed(SourceOther) && Flatten(before.log) == InputOf(es[..k]))
  {
    hide Step, Flatten, Play;
    var m := Initial(selected);
    k := EndFound(m, es);
    var before := Play(m, es[..k]);
    FramesAreTheInput(m, es[..k]);
    Whole(m, before, InputOf(es[..k]));
    assert es[..k + 1] == es[..k] + [es[k]] && es == es[..k + 1] + es[k + 1..];
    PlayConcat(m, es[..k], [es[k]]);
    PlayOne(before, es[k]);
    PlayConcat(m, es[..k + 1], es[k + 1..]);
    EndedForever(Play(m, es[..k + 1]), es[k + 1..]);
    EventCode(before, es[k]);
  }

  lemma Whole(m: Machine, r: Machine, input: bytes)
    requires m.log == [] && m.frame == [] && Flatten(r.log) + r.frame == Flatten(m.log) + m.frame + input
    ensures r.frame == [] <==> Flatten(r.log) == input
  {
    assert Flatten(m.log) + m.frame + input == input;
    if Flatten(r.log) == input {
      assert |Flatten(r.log) + r.frame| == |input|;
    }
  }

  // ---- Reading ----

  /** How many bytes reads may return in all. */
  function Room(takes: seq<Event>): nat {
    if takes == [] then 0 else (if takes[0].Take? then takes[0].limit else 0) + Room(takes[1..])
  }

  /** Reads with room enough return every approved byte there is, in order,
      whether or not the reader has ended, and change nothing else. */
  lemma {:induction false} ReadsReturnAll(m: Machine, takes: seq<Event>)
    requires Ok(m) && forall e :: e in takes ==> e.Take?
    ensures var r := Play(m, takes);
            && r == m.(out := r.out, pending := r.pending) && r.out + r.pending == m.out + m.pending
            && |r.pending| == if Room(takes) < |m.pending| then |m.pending| - Room(takes) else 0
    decreases |takes|
  {
    hide Ok;
    if takes != [] {
      var m1 := Step(m, takes[0]);
      var count := if takes[0].limit < |m.pending| then takes[0].limit else |m.pending|;
      assert m.out + m.pending == m.out + m.pending[..count] + m.pending[count..];
      ReadsReturnAll(m1, takes[1..]);
    }
  }

  // ---- The dispatch ----

  function Dispatches(es: seq<Event>): nat {
    if es == [] then 0 else (if es[0].Begin? then 1 else 0) + Dispatches(es[1..])
  }

  lemma DispatchStep(m: Machine, e: Event)
    requires Ok(m)
    ensures var r := Step(m, e);
            && (m.dispatch == Idle && !e.Begin? ==> r.dispatch == Idle)
            && (m.dispatch != Idle ==> r.dispatch != Idle)
            && (e.Begin? && r.terminal.None? ==> m.dispatch == Idle && r.dispatch == Active)
            && (m.terminal.Some? ==> r.terminal.Some?)
  {
    hide ScanByte, ControlLine, JudgePrefix;
  }

  /** A running machine was dispatched exactly as often as its state says:
      never while idle, and once otherwise. */
  lemma {:induction false} DispatchedOnce(m: Machine, es: seq<Event>)
    requires Ok(m)
    ensures var r := Play(m, es);
            r.terminal.None? ==>
              Dispatches(es) + (if m.dispatch == Idle then 0 else 1) == (if r.dispatch == Idle then 0 else 1)
    decreases |es|
  {
    hide Step;
    if es != [] {
      DispatchStep(m, es[0]);
      DispatchedOnce(Step(m, es[0]), es[1..]);
      if Step(m, es[0]).terminal.Some? {
        EndedForever(Step(m, es[0]), es[1..]);
      }
    }
  }

  lemma {:induction false} IdleWithoutDispatch(m: Machine, es: seq<Event>)
    requires Ok(m) && m.dispatch == Idle && Dispatches(es) == 0
    ensures Play(m, es).dispatch == Idle
    decreases |es|
  {
    hide Step;
    if es != [] {
      DispatchStep(m, es[0]);
      IdleWithoutDispatch(Step(m, es[0]), es[1..]);
    }
  }

  /** No structure is released before the dispatch, and after the one that is
      released none follows, however the run goes on. */
  lemma StructureOnlyAfterDispatch(selected: nat, before: seq<Event>, es: seq<Event>)
    requires Dispatches(before) == 0
    ensures Structures(Play(Initial(selected), before).log) == 0
    ensures Structures(Play(Initial(selected), before + es).log) <= 1
  {
    hide Feed, Step, Approved, Structures, Released;
    SafeInitial(selected);
    SafePlay(Initial(selected), before);
    SafePlay(Initial(selected), before + es);
    IdleWithoutDispatch(Initial(selected), before);
  }

  lemma SafeInitial(selected: nat)
    ensures Safe(Initial(selected))
  {
  }
}
