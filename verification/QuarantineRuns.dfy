/** What the quarantine releases over every run: any chunking of the input and
    any interleaving of reads, dispatch, aborts and source failures
    (bridge/structure_quarantine.go:140-398, 692-710). */
module QuarantineRuns {
  import opened Octets
  import opened Wrappers
  import opened QuarantineLexis
  import ControlGrammar
  import opened FetchScan
  import opened FetchFrame
  import opened QuarantineMachine

  datatype Failure = SourceCanceled | SourceDeadline | SourceOther

  /** One atomic step: an octet of source input, a source failure, the
      dispatch, an abort, or a read of at most limit approved bytes. */
  datatype Event =
    | Input(b: byte)
    | SourceFailed(failure: Failure)
    | Begin
    | Abort(canceled: bool)
    | Take(limit: nat)

  function FailureCode(m: Machine, failure: Failure): Code {
    match failure
    case SourceCanceled => Canceled
    case SourceDeadline => TimedOut
    case SourceOther => if m.mode.AtBoundary? then Unreachable else Protocol
  }

  function TakeBytes(m: Machine, limit: nat): Machine {
    var count := if limit < |m.pending| then limit else |m.pending|;
    m.(out := m.out + m.pending[..count], pending := m.pending[count..])
  }

  function Step(m: Machine, e: Event): (r: Machine)
    requires Ok(m)
    ensures Ok(r)
  {
    match e
    case Input(b) => Feed(m, b)
    case Take(limit) => TakeBytes(m, limit)
    case _ =>
      if m.terminal.Some? then m
      else
        match e
        case SourceFailed(failure) => Refuse(m, FailureCode(m, failure))
        case Abort(canceled) => Refuse(m, if canceled then Canceled else TimedOut)
        case _ => if m.dispatch == Idle then m.(dispatch := Active) else Refuse(m, Protocol)
  }

  function Play(m: Machine, es: seq<Event>): (r: Machine)
    requires Ok(m)
    ensures Ok(r)
    decreases |es|
  {
    if es == [] then m else Play(Step(m, es[0]), es[1..])
  }

  lemma {:induction false} PlayConcat(m: Machine, a: seq<Event>, b: seq<Event>)
    requires Ok(m)
    ensures Play(m, a + b) == Play(Play(m, a), b)
    decreases |a|
  {
    hide Step;
    if a == [] {
      assert a + b == b;
    } else {
      assert (a + b)[1..] == a[1..] + b;
      PlayConcat(Step(m, a[0]), a[1..], b);
    }
  }

  lemma PlayOne(m: Machine, e: Event)
    requires Ok(m)
    ensures Play(m, [e]) == Step(m, e)
  {
    hide Step;
    assert [e][1..] == [];
  }

  // ---- What is released ----

  function Flatten(log: seq<Framed>): bytes {
    if log == [] then [] else Flatten(log[..|log| - 1]) + log[|log| - 1].text
  }

  /** The admitted frames that are not consumed, in order. */
  function Released(log: seq<Framed>): bytes {
    if log == [] then []
    else
      var f := log[|log| - 1];
      Released(log[..|log| - 1]) + (if f.kind == FlagsOnly then [] else f.text)
  }

  function Structures(log: seq<Framed>): nat {
    if log == [] then 0
    else Structures(log[..|log| - 1]) + (if log[|log| - 1].kind == Structure then 1 else 0)
  }

  predicate NoBreaks(s: bytes) {
    CR !in s && LF !in s
  }

  /** A control response as the grammar prints it, on one line of admitted
      length. */
  ghost predicate ControlFrame(text: bytes) {
    && 2 <= |text| <= CONTROL_BYTES
    && var line := text[..|text| - 2];
       text == line + CRLF && NoBreaks(line) && ControlGrammar.Prints(line)
  }

  /** "* n FETCH " as spelled on the wire. */
  function Head(number: bytes, name: bytes): bytes {
    [STAR, SP] + number + [SP] + name + [SP]
  }

  predicate HeadWords(number: bytes, name: bytes) {
    Number(number, false).Some? && UpperIs(name, FETCH)
  }

  ghost predicate FetchText(text: bytes, number: bytes, name: bytes, attrs: seq<Attr>) {
    HeadWords(number, name) && WfList(attrs) && text == Head(number, name) + PrintList(attrs)
  }

  ghost predicate Has(attrs: seq<Attr>, item: Item) {
    exists a :: a in attrs && Kind(a) == item
  }

  /** The attribute list names the UID selected. */
  ghost predicate Names(attrs: seq<Attr>, selected: nat) {
    exists a: Attr :: a in attrs && a.UidAttr? && Number(a.number, false) == Some(selected)
  }

  /** A whole frame of the grammar and of the kind it was admitted as. */
  ghost predicate Approved(f: Framed, selected: nat) {
    match f.kind
    case Control => ControlFrame(f.text)
    case FlagsOnly =>
      exists number, name, attrs ::
        FetchText(f.text, number, name, attrs) && Has(attrs, FlagsItem) && !Has(attrs, StructureItem)
    case Structure =>
      exists number, name, attrs ::
        FetchText(f.text, number, name, attrs) && Has(attrs, StructureItem) && Names(attrs, selected)
  }

  // ---- The frame in progress ----

  function Spaces(s: bytes): nat {
    if s == [] then 0 else Spaces(s[..|s| - 1]) + (if s[|s| - 1] == SP then 1 else 0)
  }

  /** The line in progress, without the CR that may end it. */
  function Line(frame: bytes, cr: bool): bytes
    requires cr ==> frame != []
  {
    if cr then frame[..|frame| - 1] else frame
  }

  ghost predicate LineSoFar(frame: bytes, spaces: nat, cr: bool) {
    && frame != []
    && (cr ==> frame[|frame| - 1] == CR)
    && NoBreaks(Line(frame, cr))
    && (frame[0] == STAR ==> spaces == Spaces(Line(frame, cr)))
    && (frame[0] != STAR ==> spaces == 0)
  }

  ghost predicate FetchSoFar(frame: bytes, scan: Scan, number: bytes, name: bytes, w: bytes) {
    HeadWords(number, name) && frame == Head(number, name) + w && Run(START, w) == Next(scan)
  }

  ghost predicate SoFar(m: Machine) {
    match m.mode
    case AtBoundary => true
    case InLine(spaces, cr) => LineSoFar(m.frame, spaces, cr)
    case InFetch(scan) => exists number, name, w :: FetchSoFar(m.frame, scan, number, name, w)
  }

  /** What every reachable machine satisfies. */
  ghost predicate Safe(m: Machine) {
    && Ok(m) && SoFar(m)
    && m.out + m.pending == Released(m.log)
    && (forall f :: f in m.log ==> Approved(f, m.selected))
    && Structures(m.log) == (if m.dispatch == Delivered then 1 else 0)
  }

  // ---- Lines ----

  lemma {:induction false} SpacesConcat(a: bytes, b: bytes)
    ensures Spaces(a + b) == Spaces(a) + Spaces(b)
    decreases |b|
  {
    if b == [] {
      assert a + b == a;
    } else {
      assert (a + b)[..|a + b| - 1] == a + b[..|b| - 1];
      SpacesConcat(a, b[..|b| - 1]);
    }
  }

  lemma {:induction false} NoSpaces(s: bytes)
    requires SP !in s
    ensures Spaces(s) == 0
    decreases |s|
  {
    if s != [] {
      NoSpaces(s[..|s| - 1]);
    }
  }

  predicate Letters(target: bytes) {
    forall i :: 0 <= i < |target| ==> 0x41 <= target[i] <= 0x5a
  }

  /** Text whose upper case is a word has no space, control or digit in it. */
  lemma {:induction false} UpperLetters(name: bytes, target: bytes)
    requires UpperIs(name, target) && Letters(target)
    ensures forall i :: 0 <= i < |name| ==> name[i] >= 0x41
    ensures target != [] ==> name != []
    ensures |name| <= 2 * |target|
    decreases |target|
  {
    if target != [] {
      var rest := target[1..];
      if Upper(name[0]) == target[0] && UpperIs(name[1..], rest) {
        UpperLetters(name[1..], rest);
        assert name == [name[0]] + name[1..];
      } else {
        UpperLetters(name[2..], rest);
        assert name == [name[0], name[1]] + name[2..];
      }
    }
  }

  lemma HeadIsPlain(number: bytes, name: bytes)
    requires HeadWords(number, name)
    ensures SP !in number && SP !in name && number != [] && name != []
    ensures NoBreaks(number) && NoBreaks(name) && |number| <= 10 && |name| <= 10
  {
    hide UpperIs;
    UpperLetters(name, FETCH);
    CanonicalIsDecimal(number);
    Uint32Length(DecimalValue(number));
    hide DecimalValue, Decimal;
  }

  lemma TwoWordSpaces(first: bytes, number: bytes, name: bytes)
    requires SP !in number && SP !in name
    ensures Spaces(first + number + [SP] + name + [SP]) == Spaces(first) + 2
  {
    SpacesConcat(first + number + [SP] + name, [SP]);
    SpacesConcat(first + number + [SP], name);
    SpacesConcat(first + number, [SP]);
    SpacesConcat(first, number);
    NoSpaces(number);
    NoSpaces(name);
  }

  lemma TwoOctetSpaces(a: byte, b: byte)
    ensures Spaces([a, b]) == (if a == SP then 1 else 0) + (if b == SP then 1 else 0)
  {
    SpacesConcat([a], [b]);
    assert [a, b] == [a] + [b];
  }

  /** The two words of a text judged to be a FETCH head. */
  lemma JudgedWords(frame: bytes) returns (number: bytes, name: bytes)
    requires |frame| > 3 && JudgePrefix(frame) == FetchPrefix
    ensures HeadWords(number, name) && frame[2..|frame| - 1] == number + [SP] + name
  {
    hide UpperIs, Number, Find;
    var x := frame[2..|frame| - 1];
    UpperLetters(Cut(x, SP).1, FETCH);
    number, name := Cut(x, SP).0, Cut(x, SP).1;
    assert x == x[..Find(x, SP)] + [SP] + x[Find(x, SP) + 1..];
  }

  lemma FrameParts(frame: bytes, number: bytes, name: bytes)
    requires |frame| > 3 && frame[|frame| - 1] == SP && frame[2..|frame| - 1] == number + [SP] + name
    ensures frame == [frame[0], frame[1]] + number + [SP] + name + [SP]
  {
    var first, x := [frame[0], frame[1]], frame[2..|frame| - 1];
    assert frame == first + x + [SP];
    assert first + (number + [SP] + name) + [SP] == first + number + [SP] + name + [SP];
  }

  /** A line judged to be a FETCH at its third space is a FETCH head. */
  lemma JudgedHead(frame: bytes) returns (number: bytes, name: bytes)
    requires |frame| > 3 && frame[0] == STAR && frame[|frame| - 1] == SP && Spaces(frame) == 3
    requires JudgePrefix(frame) == FetchPrefix
    ensures HeadWords(number, name) && frame == Head(number, name)
  {
    hide HeadWords, JudgePrefix, Spaces, NoBreaks;
    number, name := JudgedWords(frame);
    HeadIsPlain(number, name);
    FrameParts(frame, number, name);
    TwoWordSpaces([frame[0], frame[1]], number, name);
    TwoOctetSpaces(frame[0], frame[1]);
  }
}
