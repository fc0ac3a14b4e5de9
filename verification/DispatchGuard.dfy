/** The connection guard around one native MOVE (bridge/imapclient.go:
    1833-1917): while armed it forwards at most one write, which must be one
    complete UID MOVE line for the armed UID. */
module DispatchGuard {
  import opened Octets
  import opened QuarantineLexis

  const UID_MOVE: bytes := [0x55, 0x49, 0x44, SP, 0x4d, 0x4f, 0x56, 0x45, SP]

  function Prefix(uid: nat): bytes {
    UID_MOVE + Decimal(uid) + [SP]
  }

  /** The line is a tag, the prefix, and a mailbox that ends the line: no other
      line break, and no literal whose body would need another write. */
  predicate NativeMoveLine(buffer: bytes, prefix: bytes) {
    && HasSuffix(buffer, CRLF)
    && var body := buffer[..|buffer| - 2];
       && CR !in body && LF !in body
       && var (tag, command, found) := Cut(body, SP);
          && found && tag != []
          && HasPrefix(command, prefix)
          && var mailbox := command[|prefix|..];
             mailbox != [] && mailbox[|mailbox| - 1] != RBRACE
  }

  /** The same line, printed. */
  function MoveLine(tag: bytes, prefix: bytes, mailbox: bytes): bytes {
    tag + [SP] + prefix + mailbox + CRLF
  }

  ghost predicate PlainText(s: bytes) {
    CR !in s && LF !in s
  }

  ghost predicate IsMoveLine(buffer: bytes, prefix: bytes, tag: bytes, mailbox: bytes) {
    && buffer == MoveLine(tag, prefix, mailbox)
    && tag != [] && SP !in tag && mailbox != [] && mailbox[|mailbox| - 1] != RBRACE
    && PlainText(tag) && PlainText(mailbox)
  }

  /** The guard accepts exactly the printed lines. */
  lemma NativeLineIff(buffer: bytes, prefix: bytes)
    requires PlainText(prefix)
    ensures NativeMoveLine(buffer, prefix) <==> exists tag, mailbox :: IsMoveLine(buffer, prefix, tag, mailbox)
  {
    if NativeMoveLine(buffer, prefix) {
      var body := buffer[..|buffer| - 2];
      var (tag, command, found) := Cut(body, SP);
      var mailbox := command[|prefix|..];
      CutParts(body);
      assert command == prefix + mailbox;
      assert buffer == body + CRLF;
      assert body == tag + [SP] + (prefix + mailbox);
      Parts(tag, prefix, mailbox);
      assert IsMoveLine(buffer, prefix, tag, mailbox);
    }
    if tag, mailbox :| IsMoveLine(buffer, prefix, tag, mailbox) {
      PrintedIsNative(buffer, prefix, tag, mailbox);
    }
  }

  lemma CutParts(body: bytes)
    requires Cut(body, SP).2
    ensures var (tag, command, found) := Cut(body, SP); body == tag + [SP] + command && SP !in tag
  {
  }

  lemma Parts(tag: bytes, prefix: bytes, mailbox: bytes)
    ensures tag + [SP] + (prefix + mailbox) + CRLF == MoveLine(tag, prefix, mailbox)
    ensures CR !in tag + [SP] + (prefix + mailbox) <==> CR !in tag && CR !in prefix && CR !in mailbox
    ensures LF !in tag + [SP] + (prefix + mailbox) <==> LF !in tag && LF !in prefix && LF !in mailbox
  {
  }

  lemma PrintedIsNative(buffer: bytes, prefix: bytes, tag: bytes, mailbox: bytes)
    requires PlainText(prefix) && IsMoveLine(buffer, prefix, tag, mailbox)
    ensures NativeMoveLine(buffer, prefix)
  {
    var body := tag + [SP] + (prefix + mailbox);
    Parts(tag, prefix, mailbox);
    assert buffer == body + CRLF;
    assert buffer[..|buffer| - 2] == body && buffer[|buffer| - 2..] == CRLF;
    CutAt(tag, prefix + mailbox, SP);
    assert (prefix + mailbox)[|prefix|..] == mailbox && (prefix + mailbox)[..|prefix|] == prefix;
  }

  /** A line armed for one UID is no line for another. */
  lemma LineNamesItsUid(buffer: bytes, uid: nat, other: nat)
    requires NativeMoveLine(buffer, Prefix(uid)) && NativeMoveLine(buffer, Prefix(other))
    ensures uid == other
  {
    var command := Cut(buffer[..|buffer| - 2], SP).1;
    var a, b := Decimal(uid), Decimal(other);
    var k := |UID_MOVE|;
    assert command[k..][..|a|] == a && command[k..][|a|] == SP by { PrefixParts(command, uid); }
    assert command[k..][..|b|] == b && command[k..][|b|] == SP by { PrefixParts(command, other); }
    DigitsEnd(command[k..], a, b);
    DecimalInjective(uid, other);
  }

  lemma PrefixParts(command: bytes, uid: nat)
    requires HasPrefix(command, Prefix(uid))
    ensures var a, k := Decimal(uid), |UID_MOVE|;
            |command| > k + |a| && command[k..][..|a|] == a && command[k..][|a|] == SP
  {
    var a, k, p := Decimal(uid), |UID_MOVE|, Prefix(uid);
    assert p[k..k + |a|] == a && p[k + |a|] == SP;
    assert command[..|p|] == p;
    assert command[k..][..|a|] == p[k..k + |a|];
    assert command[k..][|a|] == p[k + |a|];
  }

  lemma DigitsEnd(s: bytes, a: bytes, b: bytes)
    requires |a| < |s| && |b| < |s| && s[..|a|] == a && s[..|b|] == b && AllDigits(a) && AllDigits(b) && s[|a|] == SP && s[|b|] == SP
    ensures a == b
  {
    assert forall k :: 0 <= k < |a| ==> s[k] == a[k] && IsDigit(s[k]);
    assert forall k :: 0 <= k < |b| ==> s[k] == b[k] && IsDigit(s[k]);
  }

  // ---- The guard ----

  datatype Guard = Guard(armed: bool, used: bool, tripped: bool, prefix: bytes)

  /** One write: whether it is forwarded. */
  function GuardWrite(g: Guard, buffer: bytes): (Guard, bool) {
    if !g.armed then (g, true)
    else if g.tripped || g.used || !NativeMoveLine(buffer, g.prefix) then (g.(tripped := true), false)
    else (g.(used := true), true)
  }

  /** What reaches the transport of a run of writes. */
  function WriteAll(g: Guard, writes: seq<bytes>): (Guard, seq<bytes>)
    decreases |writes|
  {
    if writes == [] then (g, [])
    else
      var (h, forwarded) := GuardWrite(g, writes[0]);
      var (last, sent) := WriteAll(h, writes[1..]);
      (last, (if forwarded then [writes[0]] else []) + sent)
  }

  function Armed(uid: nat): Guard {
    Guard(true, false, false, Prefix(uid))
  }

  lemma {:induction false} SpentForwardsNothing(g: Guard, writes: seq<bytes>)
    requires g.armed && (g.used || g.tripped)
    ensures WriteAll(g, writes) == (g.(tripped := g.tripped || writes != []), [])
    decreases |writes|
  {
    hide NativeMoveLine;
    if writes != [] {
      var none: seq<bytes> := [];
      SpentForwardsNothing(g.(tripped := true), writes[1..]);
      assert GuardWrite(g, writes[0]) == (g.(tripped := true), false);
      assert none + none == none;
    }
  }

  /** Whatever the client library writes while armed, nothing reaches the
      transport but at most one native MOVE line for the armed UID, which is the
      first write; the guard trips exactly when there was any other write. */
  lemma ArmedForwardsOneMove(uid: nat, writes: seq<bytes>)
    ensures var (g, sent) := WriteAll(Armed(uid), writes);
            && sent == (if writes != [] && NativeMoveLine(writes[0], Prefix(uid)) then writes[..1] else [])
            && (g.used <==> sent != [])
            && (g.tripped <==> |writes| > |sent|)
  {
    hide NativeMoveLine, Prefix;
    if writes != [] {
      var (g, forwarded) := GuardWrite(Armed(uid), writes[0]);
      SpentForwardsNothing(g, writes[1..]);
      assert forwarded ==> [writes[0]] + [] == writes[..1];
    }
  }

  /** A trip means that nothing was sent exactly when no write followed a
      forwarded MOVE line: when the library writes nothing after that line. */
  lemma TripMeansNothingSentIff(uid: nat, writes: seq<bytes>)
    ensures var (g, sent) := WriteAll(Armed(uid), writes);
            (g.tripped ==> sent == []) <==> !(|writes| >= 2 && NativeMoveLine(writes[0], Prefix(uid)))
  {
    hide NativeMoveLine, Prefix, WriteAll;
    ArmedForwardsOneMove(uid, writes);
  }

  /** Two writes, a MOVE line and a capability refresh, leave the guard both
      used and tripped. */
  lemma UsedAndTripped()
    ensures var line := MoveLine([0x54], Prefix(7), [0x41]);
            var (g, sent) := WriteAll(Armed(7), [line, [0x54]]);
            g.used && g.tripped && sent == [line]
  {
    var line := MoveLine([0x54], Prefix(7), [0x41]);
    PrefixPlain(7);
    assert IsMoveLine(line, Prefix(7), [0x54], [0x41]);
    PrintedIsNative(line, Prefix(7), [0x54], [0x41]);
    hide NativeMoveLine, Prefix, WriteAll;
    var writes := [line, [0x54]];
    ArmedForwardsOneMove(7, writes);
    assert writes[..1] == [line];
  }

  lemma PrefixPlain(uid: nat)
    ensures PlainText(Prefix(uid))
  {
    assert forall i :: 0 <= i < |Decimal(uid)| ==> IsDigit(Decimal(uid)[i]);
  }

  /** The guarded connection. */
  class DispatchGuardConn {
    var armed: bool
    var used: bool
    var tripped: bool
    var prefix: bytes
    var closed: bool
    ghost var forwarded: seq<bytes>

    ghost function State(): Guard
      reads this
    {
      Guard(armed, used, tripped, prefix)
    }

    constructor ()
      ensures !armed && !closed && forwarded == []
    {
      armed, used, tripped, prefix, closed, forwarded := false, false, false, [], false, [];
    }

    method Arm(uid: nat)
      modifies this`armed, this`used, this`tripped, this`prefix
      ensures State() == Armed(uid)
    {
      armed, used, tripped := true, false, false;
      prefix := UID_MOVE + Decimal(uid) + [SP];
    }

    /** Reports whether a write was refused while armed. */
    method Disarm() returns (refused: bool)
      modifies this`armed
      ensures State() == old(State()).(armed := false) && refused == tripped
    {
      armed := false;
      refused := tripped;
    }

    /** Forwards or refuses one write; a refusal closes the connection and
        forwards no octet. */
    method Write(buffer: bytes) returns (ok: bool)
      modifies this`used, this`tripped, this`closed, this`forwarded
      ensures (State(), ok) == GuardWrite(old(State()), buffer)
      ensures forwarded == old(forwarded) + if ok then [buffer] else []
      ensures closed == (old(closed) || !ok)
    {
      if armed {
        if tripped || used || !NativeMoveLine(buffer, prefix) {
          tripped := true;
          closed := true;
          return false;
        }
        used := true;
      }
      forwarded := forwarded + [buffer];
      ok := true;
    }
  }
}
