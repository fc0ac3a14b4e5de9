/** Extracting the four threading fields of a header block
    (bridge/thread_fields.go:22-95, bridge/imapclient.go:954-973). */
module ThreadFields {
  import opened Octets
  import opened Sequences
  import opened Wrappers
  import opened SearchWire

  const SUBJECT: bytes := [0x53, 0x75, 0x62, 0x6a, 0x65, 0x63, 0x74]
  const MESSAGE_ID: bytes := [0x4d, 0x65, 0x73, 0x73, 0x61, 0x67, 0x65, 0x2d, 0x49, 0x44]
  const IN_REPLY_TO: bytes := [0x49, 0x6e, 0x2d, 0x52, 0x65, 0x70, 0x6c, 0x79, 0x2d, 0x54, 0x6f]
  const REFERENCES: bytes := [0x52, 0x65, 0x66, 0x65, 0x72, 0x65, 0x6e, 0x63, 0x65, 0x73]
  const NAMES: seq<bytes> := [SUBJECT, MESSAGE_ID, IN_REPLY_TO, REFERENCES]

  // ---- Lines ----

  /** The first line with its line break, or all that is left. */
  function FirstRaw(h: bytes): (raw: bytes)
    ensures raw <= h && (h != [] ==> raw != [])
  {
    var i := Find(h, LF);
    if i < |h| then h[..i + 1] else h
  }

  function Line(raw: bytes): bytes {
    TrimSuffix(TrimSuffix(raw, LF), CR)
  }

  /** The lines before the first blank one, and that one if there is one. */
  function Parse(h: bytes): (seq<bytes>, Option<bytes>)
    decreases |h|
  {
    if h == [] then ([], None)
    else
      var raw := FirstRaw(h);
      if Line(raw) == [] then ([], Some(raw))
      else
        var (lines, end) := Parse(h[|raw|..]);
        ([raw] + lines, end)
  }

  function Joined(lines: seq<bytes>): bytes {
    if lines == [] then [] else lines[0] + Joined(lines[1..])
  }

  /** A line that is neither blank nor broken inside. */
  ghost predicate WholeLine(raw: bytes) {
    |raw| > 0 && raw[|raw| - 1] == LF && LF !in raw[..|raw| - 1] && Line(raw) != []
  }

  ghost predicate BlankLine(raw: bytes) {
    raw == [LF] || raw == [CR, LF]
  }

  lemma FirstRawOf(raw: bytes, rest: bytes)
    requires raw != [] && raw[|raw| - 1] == LF && LF !in raw[..|raw| - 1]
    ensures FirstRaw(raw + rest) == raw && (raw + rest)[|raw|..] == rest
  {
    FindLast(raw, rest);
    assert (raw + rest)[..|raw|] == raw;
  }

  lemma {:induction false} FindLast(raw: bytes, rest: bytes)
    requires raw != [] && raw[|raw| - 1] == LF && LF !in raw[..|raw| - 1]
    ensures Find(raw + rest, LF) == |raw| - 1
    decreases |raw|
  {
    var s := raw + rest;
    if |raw| > 1 {
      assert s[0] == raw[..|raw| - 1][0] != LF && s[1..] == raw[1..] + rest;
      assert raw[1..][..|raw| - 2] == raw[..|raw| - 1][1..];
      FindLast(raw[1..], rest);
    }
  }

  lemma PrintedLine(lines: seq<bytes>, blank: bytes, body: bytes)
    requires lines != []
    ensures Joined(lines) + blank + body == lines[0] + (Joined(lines[1..]) + blank + body)
  {
  }

  /** Printed lines are read back, whatever follows the blank line. */
  lemma {:induction false} ParsePrinted(lines: seq<bytes>, blank: bytes, body: bytes)
    requires (forall i :: 0 <= i < |lines| ==> WholeLine(lines[i])) && BlankLine(blank)
    ensures Parse(Joined(lines) + blank + body) == (lines, Some(blank))
    decreases |lines|
  {
    hide FirstRaw;
    if lines == [] {
      FirstRawOf(blank, body);
      assert Joined(lines) + blank + body == blank + body;
      assert Line(blank) == [];
    } else {
      var rest := Joined(lines[1..]) + blank + body;
      PrintedLine(lines, blank, body);
      FirstRawOf(lines[0], rest);
      ParsePrinted(lines[1..], blank, body);
      assert [lines[0]] + lines[1..] == lines;
    }
  }

  /** A complete header block: its lines up to and with a blank line. */
  ghost predicate Complete(h: bytes) {
    Parse(h).1.Some? && BlankLine(Parse(h).1.value)
  }

  lemma PrefixJoined(raw: bytes, lines: seq<bytes>, end: bytes, rest: bytes)
    requires Joined(lines) + end <= rest
    ensures Joined([raw] + lines) + end <= raw + rest
  {
    assert ([raw] + lines)[1..] == lines;
    assert Joined([raw] + lines) + end == raw + (Joined(lines) + end);
  }

  /** Parsing a block whose first line is not blank goes on behind it. */
  lemma CompleteRest(h: bytes)
    requires Complete(h) && Line(FirstRaw(h)) != []
    ensures var raw, rest := FirstRaw(h), h[|FirstRaw(h)|..];
            && Complete(rest) && rest != [] && h == raw + rest
            && Parse(h) == ([raw] + Parse(rest).0, Parse(rest).1)
  {
    hide FirstRaw, Line;
    var rest := h[|FirstRaw(h)|..];
    assert Parse(h).1 == Parse(rest).1 && Parse([]).1 == None;
  }

  lemma {:induction false} ParseLines(h: bytes)
    requires Complete(h)
    ensures var (lines, end) := Parse(h);
            && (forall i :: 0 <= i < |lines| ==> WholeLine(lines[i]))
            && Joined(lines) + end.value <= h
    decreases |h|
  {
    hide WholeLine, Line, FirstRaw, BlankLine;
    var raw := FirstRaw(h);
    if Line(raw) == [] {
      assert Joined([]) + raw == raw;
    } else {
      hide Parse, Joined;
      CompleteRest(h);
      var rest := h[|raw|..];
      ParseLines(rest);
      PrefixJoined(raw, Parse(rest).0, Parse(rest).1.value, rest);
      FirstWhole(h);
    }
  }

  lemma FirstWhole(h: bytes)
    requires h != [] && |FirstRaw(h)| < |h| && Line(FirstRaw(h)) != []
    ensures WholeLine(FirstRaw(h))
  {
  }

  // ---- Fields ----

  function Lower(b: byte): byte {
    if 0x41 <= b <= 0x5a then b + 0x20 else b
  }

  predicate EqualFold(left: bytes, right: bytes) {
    |left| == |right| && forall i :: 0 <= i < |left| ==> Lower(left[i]) == Lower(right[i])
  }

  predicate Continues(raw: bytes) {
    Line(raw) != [] && (Line(raw)[0] == SP || Line(raw)[0] == TAB)
  }

  function NameOf(raw: bytes): Option<bytes> {
    var i := Find(Line(raw), COLON);
    if i < |Line(raw)| then Some(Line(raw)[..i]) else None
  }

  predicate Names(raw: bytes, k: nat)
    requires k < |NAMES|
  {
    !Continues(raw) && NameOf(raw).Some? && EqualFold(NameOf(raw).value, NAMES[k])
  }

  /** The continuation lines at the front. */
  function Folded(lines: seq<bytes>): seq<bytes> {
    if lines == [] || !Continues(lines[0]) then [] else [lines[0]] + Folded(lines[1..])
  }

  /** The first field of that name with its continuation lines. */
  function FirstField(lines: seq<bytes>, k: nat): seq<bytes>
    requires k < |NAMES|
  {
    if lines == [] then []
    else if Names(lines[0], k) then [lines[0]] + Folded(lines[1..])
    else FirstField(lines[1..], k)
  }

  /** The field of the name from the line at i to before the one at j: no earlier
      line names it, and j is the first line behind i that does not go on. */
  ghost predicate FieldAt(lines: seq<bytes>, k: nat, i: nat, j: nat)
    requires k < |NAMES|
  {
    && i < j <= |lines| && Names(lines[i], k) && (forall t :: 0 <= t < i ==> !Names(lines[t], k))
    && (forall t :: i < t < j ==> Continues(lines[t])) && (j < |lines| ==> !Continues(lines[j]))
  }

  lemma {:induction false} FoldedRuns(lines: seq<bytes>) returns (n: nat)
    ensures n <= |lines| && Folded(lines) == lines[..n]
    ensures (forall t :: 0 <= t < n ==> Continues(lines[t])) && (n < |lines| ==> !Continues(lines[n]))
    decreases |lines|
  {
    hide Continues;
    if lines == [] || !Continues(lines[0]) {
      n := 0;
    } else {
      n := FoldedRuns(lines[1..]);
      assert forall t :: 0 < t <= n ==> lines[t] == lines[1..][t - 1];
      assert [lines[0]] + lines[1..][..n] == lines[..n + 1];
      n := n + 1;
    }
  }

  /** The field taken is the first of its name with all that goes on with it, and
      there is none exactly when no line has the name. */
  lemma {:induction false} FieldTaken(lines: seq<bytes>, k: nat)
    requires k < |NAMES|
    ensures if exists i :: 0 <= i < |lines| && Names(lines[i], k)
            then exists i: nat, j: nat :: FieldAt(lines, k, i, j) && FirstField(lines, k) == lines[i..j]
            else FirstField(lines, k) == []
    decreases |lines|
  {
    hide Names, Continues, Folded;
    if lines != [] {
      var tail := lines[1..];
      if Names(lines[0], k) {
        var n := FoldedRuns(tail);
        assert forall t :: 0 < t < |lines| ==> lines[t] == tail[t - 1];
        assert [lines[0]] + tail[..n] == lines[0..n + 1];
        assert FieldAt(lines, k, 0, n + 1);
      } else {
        FieldTaken(tail, k);
        assert forall t :: 0 < t < |lines| ==> lines[t] == tail[t - 1];
        if exists i :: 0 <= i < |tail| && Names(tail[i], k) {
          var i: nat, j: nat :| FieldAt(tail, k, i, j) && FirstField(tail, k) == tail[i..j];
          assert tail[i..j] == lines[i + 1..j + 1];
          assert FieldAt(lines, k, i + 1, j + 1);
        }
      }
    }
  }

  function FourFields(lines: seq<bytes>): seq<bytes> {
    FirstField(lines, 0) + FirstField(lines, 1) + FirstField(lines, 2) + FirstField(lines, 3)
  }

  /** The block of threading fields. */
  function FieldBlock(h: bytes): bytes {
    var (lines, end) := Parse(h);
    Joined(FourFields(lines)) + if end.Some? then end.value else CRLF
  }

  /** No line names two fields. */
  lemma NamesDiffer(raw: bytes, j: nat, k: nat)
    requires j < |NAMES| && k < |NAMES| && Names(raw, j) && Names(raw, k)
    ensures j == k
  {
    var name := NameOf(raw).value;
    assert |name| == |NAMES[j]| == |NAMES[k]|;
    assert MESSAGE_ID[0] == 0x4d && REFERENCES[0] == 0x52;
    assert Lower(name[0]) == Lower(NAMES[j][0]) == Lower(NAMES[k][0]);
  }

  /** A field: a line of that name, then only continuation lines; or nothing. */
  ghost predicate IsField(f: seq<bytes>, k: nat)
    requires k < |NAMES|
  {
    f != [] ==> Names(f[0], k) && forall i :: 0 < i < |f| ==> Continues(f[i])
  }

  lemma {:induction false} FoldedIs(lines: seq<bytes>)
    ensures forall i :: 0 <= i < |Folded(lines)| ==> Continues(Folded(lines)[i])
    ensures Folded(lines) <= lines
  {
    hide Continues;
    if lines != [] && Continues(lines[0]) {
      FoldedIs(lines[1..]);
    }
  }

  lemma {:induction false} FirstFieldIs(lines: seq<bytes>, k: nat)
    requires k < |NAMES|
    ensures IsField(FirstField(lines, k), k) && forall x :: x in FirstField(lines, k) ==> x in lines
    decreases |lines|
  {
    hide Continues, Names;
    if lines != [] {
      if Names(lines[0], k) {
        FoldedIs(lines[1..]);
      } else {
        FirstFieldIs(lines[1..], k);
      }
    }
  }

  /** Lines that do not name the field are passed over. */
  lemma SkipField(f: seq<bytes>, j: nat, more: seq<bytes>, k: nat)
    requires j < |NAMES| && k < |NAMES| && j != k && IsField(f, j)
    ensures FirstField(f + more, k) == FirstField(more, k)
  {
    if f == [] {
      assert f + more == more;
    } else {
      if Names(f[0], k) {
        NamesDiffer(f[0], j, k);
      }
      assert (f + more)[1..] == f[1..] + more;
      SkipContinued(f[1..], more, k);
    }
  }

  lemma {:induction false} SkipContinued(f: seq<bytes>, more: seq<bytes>, k: nat)
    requires k < |NAMES| && forall i :: 0 <= i < |f| ==> Continues(f[i])
    ensures FirstField(f + more, k) == FirstField(more, k)
    decreases |f|
  {
    hide Continues;
    if f == [] {
      assert f + more == more;
    } else {
      assert (f + more)[1..] == f[1..] + more;
      SkipContinued(f[1..], more, k);
    }
  }

  lemma {:induction false} FoldedStops(f: seq<bytes>, more: seq<bytes>)
    requires (forall i :: 0 <= i < |f| ==> Continues(f[i])) && (more != [] ==> !Continues(more[0]))
    ensures Folded(f + more) == f
    decreases |f|
  {
    hide Continues;
    if f == [] {
      assert f + more == more;
    } else {
      assert (f + more)[1..] == f[1..] + more;
      FoldedStops(f[1..], more);
    }
  }

  lemma FieldFirst(f: seq<bytes>, k: nat, more: seq<bytes>)
    requires k < |NAMES| && IsField(f, k) && (more != [] ==> !Continues(more[0]))
    requires f == [] ==> FirstField(more, k) == []
    ensures FirstField(f + more, k) == f
  {
    hide Continues;
    if f == [] {
      assert f + more == more;
    } else {
      assert (f + more)[1..] == f[1..] + more;
      FoldedStops(f[1..], more);
    }
  }

  lemma FieldStarts(f: seq<bytes>, k: nat, more: seq<bytes>)
    requires k < |NAMES| && IsField(f, k) && (more != [] ==> !Continues(more[0]))
    ensures f + more != [] ==> !Continues((f + more)[0])
  {
    hide Continues;
    if f == [] {
      assert f + more == more;
    }
  }

  /** In the four fields each name finds its own field again. */
  lemma FourAgain(lines: seq<bytes>, k: nat)
    requires k < |NAMES|
    ensures FirstField(FourFields(lines), k) == FirstField(lines, k)
  {
    hide Continues, Names, FirstField, Folded;
    var a, b, c, d := FirstField(lines, 0), FirstField(lines, 1), FirstField(lines, 2), FirstField(lines, 3);
    FirstFieldIs(lines, 0);
    FirstFieldIs(lines, 1);
    FirstFieldIs(lines, 2);
    FirstFieldIs(lines, 3);
    assert FourFields(lines) == a + (b + (c + (d + [])));
    NothingFirst(k);
    FieldStarts(d, 3, []);
    FieldStarts(c, 2, d + []);
    FieldStarts(b, 1, c + (d + []));
    FourFirst(a, b, c, d, k);
  }

  lemma NothingFirst(k: nat)
    requires k < |NAMES|
    ensures FirstField([], k) == []
  {
  }

  lemma FourFirst(a: seq<bytes>, b: seq<bytes>, c: seq<bytes>, d: seq<bytes>, k: nat)
    requires k < |NAMES| && IsField(a, 0) && IsField(b, 1) && IsField(c, 2) && IsField(d, 3)
    requires d + [] != [] ==> !Continues((d + [])[0])
    requires c + (d + []) != [] ==> !Continues((c + (d + []))[0])
    requires b + (c + (d + [])) != [] ==> !Continues((b + (c + (d + [])))[0])
    ensures FirstField(a + (b + (c + (d + []))), k) == [a, b, c, d][k]
  {
    hide Continues, Names, FirstField, IsField;
    NothingFirst(k);
    if k != 0 { SkipField(a, 0, b + (c + (d + [])), k); }
    if k != 1 { SkipField(b, 1, c + (d + []), k); }
    if k != 2 { SkipField(c, 2, d + [], k); }
    if k != 3 { SkipField(d, 3, [], k); }
    if k == 0 { FieldFirst(a, 0, b + (c + (d + []))); }
    if k == 1 { FieldFirst(b, 1, c + (d + [])); }
    if k == 2 { FieldFirst(c, 2, d + []); }
    if k == 3 { FieldFirst(d, 3, []); }
  }

  // ---- The block ----

  lemma {:induction false} JoinedConcat(a: seq<bytes>, b: seq<bytes>)
    ensures Joined(a + b) == Joined(a) + Joined(b)
    decreases |a|
  {
    if a == [] {
      assert a + b == b;
    } else {
      assert (a + b)[1..] == a[1..] + b;
      JoinedConcat(a[1..], b);
      assert a[0] + (Joined(a[1..]) + Joined(b)) == a[0] + Joined(a[1..]) + Joined(b);
    }
  }

  lemma FourWhole(lines: seq<bytes>)
    requires forall i :: 0 <= i < |lines| ==> WholeLine(lines[i])
    ensures forall i :: 0 <= i < |FourFields(lines)| ==> WholeLine(FourFields(lines)[i])
  {
    hide WholeLine, FirstField;
    forall i | 0 <= i < |FourFields(lines)| ensures WholeLine(FourFields(lines)[i]) {
      FirstFieldIs(lines, 0);
      FirstFieldIs(lines, 1);
      FirstFieldIs(lines, 2);
      FirstFieldIs(lines, 3);
      assert FourFields(lines)[i] in FourFields(lines);
      assert FourFields(lines)[i] in lines;
    }
  }

  /** On a complete header block the extraction is itself a complete block with
      nothing after it; in it each of the four names finds the very lines it
      finds in the input; and extracting again changes nothing. */
  lemma BlockPreserves(h: bytes, k: nat)
    requires Complete(h) && k < |NAMES|
    ensures Complete(FieldBlock(h)) && Parse(FieldBlock(h)) == (FourFields(Parse(h).0), Parse(h).1)
    ensures FirstField(Parse(FieldBlock(h)).0, k) == FirstField(Parse(h).0, k)
    ensures FieldBlock(FieldBlock(h)) == FieldBlock(h)
  {
    hide Parse, FirstField, WholeLine, FourFields;
    var (lines, end) := Parse(h);
    ParseLines(h);
    FourWhole(lines);
    ParsePrinted(FourFields(lines), end.value, []);
    assert FieldBlock(h) + [] == FieldBlock(h);
    FourAgain(lines, k);
    FourAgain(lines, 0);
    FourAgain(lines, 1);
    FourAgain(lines, 2);
    FourAgain(lines, 3);
    assert FourFields(FourFields(lines)) == FourFields(lines) by { FourSame(lines); }
  }

  lemma FourSame(lines: seq<bytes>)
    requires forall k :: 0 <= k < |NAMES| ==> FirstField(FourFields(lines), k) == FirstField(lines, k)
    ensures FourFields(FourFields(lines)) == FourFields(lines)
  {
    assert |NAMES| == 4;
    hide FirstField;
    var four := FourFields(lines);
    assert FirstField(four, 0) == FirstField(lines, 0) && FirstField(four, 1) == FirstField(lines, 1);
    assert FirstField(four, 2) == FirstField(lines, 2) && FirstField(four, 3) == FirstField(lines, 3);
  }

  /** The octets of the fields found in lines, none counted twice. */
  lemma {:induction false} FieldsFit(lines: seq<bytes>, wanted: seq<nat>)
    requires forall i :: 0 <= i < |wanted| ==> wanted[i] < |NAMES|
    requires forall i, j :: 0 <= i < j < |wanted| ==> wanted[i] != wanted[j]
    ensures Total(lines, wanted) <= |Joined(lines)|
    decreases |lines|, 0
  {
    hide Names, Continues, Folded;
    if lines == [] {
      NoFields(wanted);
    } else if exists i :: 0 <= i < |wanted| && Names(lines[0], wanted[i]) {
      hide Joined, FirstField, Total;
      var i :| 0 <= i < |wanted| && Names(lines[0], wanted[i]);
      var others := wanted[..i] + wanted[i + 1..];
      OthersDiffer(lines[0], wanted, i);
      TotalWithout(lines, wanted, i);
      FieldSize(lines, wanted[i]);
      TotalLater(lines, others);
      AfterFolded(lines[1..], others);
    } else {
      TotalLater(lines, wanted);
      FieldsFit(lines[1..], wanted);
    }
  }

  lemma OthersDiffer(raw: bytes, wanted: seq<nat>, i: nat)
    requires i < |wanted| && (forall j :: 0 <= j < |wanted| ==> wanted[j] < |NAMES|) && Names(raw, wanted[i])
    requires forall j, k :: 0 <= j < k < |wanted| ==> wanted[j] != wanted[k]
    ensures var others := wanted[..i] + wanted[i + 1..];
            && (forall j :: 0 <= j < |others| ==> others[j] < |NAMES| && !Names(raw, others[j]))
            && (forall j, k :: 0 <= j < k < |others| ==> others[j] != others[k])
  {
    hide Names;
    var others := wanted[..i] + wanted[i + 1..];
    assert forall j :: 0 <= j < |others| ==> others[j] == wanted[if j < i then j else j + 1];
    forall j | 0 <= j < |others| ensures !Names(raw, others[j]) {
      if Names(raw, others[j]) {
        NamesDiffer(raw, others[j], wanted[i]);
      }
    }
  }

  lemma FieldSize(lines: seq<bytes>, k: nat)
    requires lines != [] && k < |NAMES| && Names(lines[0], k)
    ensures |Joined(FirstField(lines, k))| == |lines[0]| + |Joined(Folded(lines[1..]))|
    ensures |Joined(lines)| == |lines[0]| + |Joined(lines[1..])|
  {
    hide Names, Folded;
    var f := Folded(lines[1..]);
    assert ([lines[0]] + f)[1..] == f;
  }

  function Total(lines: seq<bytes>, wanted: seq<nat>): nat
    requires forall i :: 0 <= i < |wanted| ==> wanted[i] < |NAMES|
  {
    if wanted == [] then 0 else |Joined(FirstField(lines, wanted[0]))| + Total(lines, wanted[1..])
  }

  lemma {:induction false} NoFields(wanted: seq<nat>)
    requires forall i :: 0 <= i < |wanted| ==> wanted[i] < |NAMES|
    ensures Total([], wanted) == 0
    decreases |wanted|
  {
    if wanted != [] {
      NoFields(wanted[1..]);
    }
  }

  lemma {:induction false} TotalWithout(lines: seq<bytes>, wanted: seq<nat>, i: nat)
    requires i < |wanted| && forall j :: 0 <= j < |wanted| ==> wanted[j] < |NAMES|
    ensures Total(lines, wanted) == |Joined(FirstField(lines, wanted[i]))| + Total(lines, wanted[..i] + wanted[i + 1..])
    decreases |wanted|
  {
    hide FirstField;
    var others := wanted[..i] + wanted[i + 1..];
    if i == 0 {
      assert others == wanted[1..];
    } else {
      TotalWithout(lines, wanted[1..], i - 1);
      assert others[1..] == wanted[1..][..i - 1] + wanted[1..][i..];
    }
  }

  lemma {:induction false} TotalLater(lines: seq<bytes>, wanted: seq<nat>)
    requires lines != [] && forall j :: 0 <= j < |wanted| ==> wanted[j] < |NAMES| && !Names(lines[0], wanted[j])
    ensures Total(lines, wanted) == Total(lines[1..], wanted)
    decreases |wanted|
  {
    hide Names;
    if wanted != [] {
      TotalLater(lines, wanted[1..]);
    }
  }

  /** After a field, the others are found behind its continuation lines. */
  lemma {:induction false} AfterFolded(lines: seq<bytes>, wanted: seq<nat>)
    requires forall i :: 0 <= i < |wanted| ==> wanted[i] < |NAMES|
    requires forall i, j :: 0 <= i < j < |wanted| ==> wanted[i] != wanted[j]
    ensures |Joined(Folded(lines))| + Total(lines, wanted) <= |Joined(lines)|
    decreases |lines|, 1
  {
    if lines == [] || !Continues(lines[0]) {
      FieldsFit(lines, wanted);
    } else {
      TotalLater(lines, wanted);
      AfterFolded(lines[1..], wanted);
    }
  }

  /** The extraction is never longer than the block it is taken from. */
  lemma BlockFits(h: bytes)
    requires Complete(h)
    ensures var (lines, end) := Parse(h); |FieldBlock(h)| <= |Joined(lines) + end.value| <= |h|
  {
    hide Parse, FirstField, Joined;
    var (lines, end) := Parse(h);
    ParseLines(h);
    FieldsFit(lines, [0, 1, 2, 3]);
    FourTotal(lines);
  }

  lemma FourJoined(lines: seq<bytes>)
    ensures Joined(FourFields(lines)) == Joined(FirstField(lines, 0)) + Joined(FirstField(lines, 1)) + Joined(FirstField(lines, 2)) + Joined(FirstField(lines, 3))
  {
    hide Joined, FirstField;
    var a, b, c, d := FirstField(lines, 0), FirstField(lines, 1), FirstField(lines, 2), FirstField(lines, 3);
    JoinedConcat(a + b + c, d);
    JoinedConcat(a + b, c);
    JoinedConcat(a, b);
  }

  lemma FourTotal(lines: seq<bytes>)
    ensures |Joined(FourFields(lines))| == Total(lines, [0, 1, 2, 3])
  {
    hide Joined, FirstField;
    var a, b, c, d := FirstField(lines, 0), FirstField(lines, 1), FirstField(lines, 2), FirstField(lines, 3);
    FourJoined(lines);
    var one: seq<nat>, two: seq<nat>, three: seq<nat>, four: seq<nat> := [3], [2, 3], [1, 2, 3], [0, 1, 2, 3];
    assert one[1..] == [] && two[1..] == one && three[1..] == two && four[1..] == three;
    assert Total(lines, one) == |Joined(d)| && Total(lines, two) == |Joined(c)| + Total(lines, one);
    assert Total(lines, three) == |Joined(b)| + Total(lines, two);
  }

  // ---- The scan ----

  method ThreadFieldSlot(raw: bytes) returns (slot: int)
    requires !Continues(raw)
    ensures -1 <= slot < |NAMES|
    ensures slot >= 0 ==> Names(raw, slot)
    ensures slot < 0 ==> forall k :: 0 <= k < |NAMES| ==> !Names(raw, k)
  {
    hide EqualFold;
    var name := NameOf(raw);
    if name.None? {
      return -1;
    }
    for k := 0 to |NAMES|
      invariant forall j :: 0 <= j < k ==> !Names(raw, j)
    {
      if EqualFold(name.value, NAMES[k]) {
        return k;
      }
    }
    slot := -1;
  }

  /** What the rest of the lines still adds to a slot. */
  function Still(lines: seq<bytes>, k: nat, current: int, slot: bytes): bytes
    requires k < |NAMES|
  {
    if current == k then Joined(Folded(lines)) else if slot == [] then Joined(FirstField(lines, k)) else []
  }

  lemma StillLine(lines: seq<bytes>, k: nat, current: int, slot: bytes, now: int)
    requires k < |NAMES| && lines != [] && lines[0] != []
    requires current == k ==> slot != []
    requires Continues(lines[0]) ==> now == current
    requires !Continues(lines[0]) && now == k ==> Names(lines[0], k) && slot == []
    requires !Continues(lines[0]) && now != k ==> slot != [] || !Names(lines[0], k)
    ensures var more := if now == k then slot + lines[0] else slot;
            && slot + Still(lines, k, current, slot) == more + Still(lines[1..], k, now, more)
            && (now == k ==> more != [])
  {
    hide Continues, Names;
    var f := Folded(lines[1..]);
    assert ([lines[0]] + f)[1..] == f;
    assert Joined([lines[0]] + f) == lines[0] + Joined(f);
    assert slot + (lines[0] + Joined(f)) == slot + lines[0] + Joined(f);
    NotBoth(lines[0], k);
  }

  lemma StillAll(all: seq<bytes>)
    ensures forall k :: 0 <= k < |NAMES| ==> [] + Still(all, k, -1, []) == Joined(FirstField(all, k))
  {
    hide FirstField;
  }

  lemma StillNone(slots: seq<bytes>, current: int)
    requires |slots| == |NAMES|
    ensures forall k :: 0 <= k < |NAMES| ==> slots[k] + Still([], k, current, slots[k]) == slots[k]
  {
  }

  lemma NotBoth(raw: bytes, k: nat)
    requires k < |NAMES|
    ensures !(Continues(raw) && Names(raw, k))
  {
  }

  /** One pass over the header, with one slot per field. */
  method ThreadFieldBlock(header: bytes) returns (block: bytes)
    ensures block == FieldBlock(header)
  {
    hide Still, Continues, Names, FirstField, Line, FirstRaw, Folded;
    var slots: seq<bytes> := [[], [], [], []];
    var terminator := CRLF;
    var current, lineStart := -1, 0;
    ghost var all := Parse(header).0;
    ghost var left := all;
    assert header[0..] == header;
    StillAll(all);
    while lineStart < |header|
      invariant lineStart <= |header| && |slots| == 4 && -1 <= current < 4
      invariant Parse(header[lineStart..]) == (left, Parse(header).1) && terminator == CRLF
      invariant forall k :: 0 <= k < 4 ==> slots[k] + Still(left, k, current, slots[k]) == Joined(FirstField(all, k))
      invariant current >= 0 ==> slots[current] != []
    {
      var raw := FirstRaw(header[lineStart..]);
      var line := Line(raw);
      if line == [] {
        terminator := raw;
        StillNone(slots, current);
        break;
      }
      var now, found := current, -1;
      if !Continues(raw) {
        found := ThreadFieldSlot(raw);
        now := found;
        if now >= 0 && slots[now] != [] {
          now := -1;
        }
      }
      assert left != [] && left[0] == raw;
      ghost var before := slots;
      if now >= 0 {
        slots := slots[now := slots[now] + raw];
      }
      forall k | 0 <= k < 4
        ensures slots[k] + Still(left[1..], k, now, slots[k]) == Joined(FirstField(all, k)) && (now == k ==> slots[k] != [])
      {
        if found >= 0 && Names(raw, k) {
          NamesDiffer(raw, found, k);
        }
        StillLine(left, k, current, before[k], now);
      }
      assert header[lineStart..][|raw|..] == header[lineStart + |raw|..];
      current, left := now, left[1..];
      lineStart := lineStart + |raw|;
    }
    if lineStart >= |header| {
      assert header[lineStart..] == [];
      StillNone(slots, current);
    }
    block := slots[0] + slots[1] + slots[2] + slots[3] + terminator;
    FourJoined(all);
  }

  /** The offset just past the first blank line, if there is one. */
  method HeaderTerminatorEnd(header: bytes) returns (end: Option<nat>)
    ensures end.Some? <==> Complete(header)
    ensures end.Some? ==> end.value == |Joined(Parse(header).0) + Parse(header).1.value|
  {
    hide Joined, Parse, BlankLine, TrimSuffix;
    var lineStart := 0;
    ghost var before: seq<bytes> := [];
    assert header[0..] == header && before + Parse(header).0 == Parse(header).0;
    JoinedNone();
    while lineStart < |header|
      invariant lineStart <= |header| && |Joined(before)| == lineStart
      invariant Parse(header) == (before + Parse(header[lineStart..]).0, Parse(header[lineStart..]).1)
    {
      var rest := header[lineStart..];
      var length := Find(rest, LF);
      if length == |rest| {
        Unended(rest);
        return None;
      }
      if TrimSuffix(rest[..length], CR) == [] {
        BlankFound(rest, length);
        assert before + [] == before;
        assert Complete(header);
        return Some(lineStart + length + 1);
      }
      LineFound(rest, length);
      ghost var raw := rest[..length + 1];
      assert header[lineStart + length + 1..] == rest[length + 1..];
      JoinedConcat(before, [raw]);
      JoinedOne(raw);
      Assoc(before, [raw], Parse(rest[length + 1..]).0);
      before := before + [raw];
      lineStart := lineStart + length + 1;
    }
    assert header[lineStart..] == [];
    end := None;
  }

  lemma JoinedNone()
    ensures Joined([]) == [] && Parse([]) == ([], None)
  {
  }

  lemma JoinedOne(raw: bytes)
    ensures Joined([raw]) == raw
  {
    assert [raw][1..] == [] && raw + [] == raw;
  }

  lemma Unended(rest: bytes)
    requires rest != [] && Find(rest, LF) == |rest|
    ensures !(Parse(rest).1.Some? && BlankLine(Parse(rest).1.value))
  {
    assert FirstRaw(rest) == rest && rest[|rest|..] == [];
    assert LF !in rest;
    assert Parse([]) == ([], None);
  }

  lemma BlankFound(rest: bytes, length: nat)
    requires length == Find(rest, LF) < |rest| && TrimSuffix(rest[..length], CR) == []
    ensures Parse(rest) == ([], Some(rest[..length + 1])) && BlankLine(rest[..length + 1]) && |rest[..length + 1]| == length + 1
  {
    var raw := rest[..length + 1];
    assert raw[..length] == rest[..length] && raw[length] == LF;
    assert length > 0 ==> rest[..length] == [CR];
  }

  lemma LineFound(rest: bytes, length: nat)
    requires length == Find(rest, LF) < |rest| && TrimSuffix(rest[..length], CR) != []
    ensures Parse(rest) == ([rest[..length + 1]] + Parse(rest[length + 1..]).0, Parse(rest[length + 1..]).1)
  {
    var raw := rest[..length + 1];
    assert raw[..length] == rest[..length] && raw[length] == LF;
  }
}
