/** Well-formed UTF-8 (section 4 of RFC 3629), and its repair. */
module Utf8 {
  import opened Octets

  predicate Trailing(b: byte) {
    0x80 <= b <= 0xbf
  }

  /** The length of the character that s starts with, or 0. */
  function CharAt(s: bytes): (n: nat)
    ensures n <= |s| && n <= 4
    ensures n > 0 ==> !Trailing(s[0]) && forall i :: 0 < i < n ==> Trailing(s[i])
  {
    if s == [] then 0
    else if s[0] <= 0x7f then 1
    else if 0xc2 <= s[0] <= 0xdf && |s| >= 2 && Trailing(s[1]) then 2
    else if 0xe0 <= s[0] <= 0xef && |s| >= 3 && Trailing(s[1]) && Trailing(s[2]) && (s[0] == 0xe0 ==> s[1] >= 0xa0) && (s[0] == 0xed ==> s[1] <= 0x9f) then 3
    else if 0xf0 <= s[0] <= 0xf4 && |s| >= 4 && Trailing(s[1]) && Trailing(s[2]) && Trailing(s[3])
            && (s[0] == 0xf0 ==> s[1] >= 0x90) && (s[0] == 0xf4 ==> s[1] <= 0x8f) then 4
    else 0
  }

  predicate Valid(s: bytes)
    decreases |s|
  {
    s == [] || (CharAt(s) > 0 && Valid(s[CharAt(s)..]))
  }

  lemma CharPrefix(s: bytes, k: nat)
    requires CharAt(s) > 0 && k <= |s|
    ensures k >= CharAt(s) ==> CharAt(s[..k]) == CharAt(s)
    ensures 0 < k < CharAt(s) ==> CharAt(s[..k]) == 0
  {
    var p := s[..k];
    assert forall i :: 0 <= i < k ==> p[i] == s[i];
  }

  /** The replacement character U+FFFD. */
  const REPLACEMENT: bytes := [0xef, 0xbf, 0xbd]

  /** Every run of octets that belong to no character becomes one replacement
      character; broken says whether such a run is in progress. */
  function Repaired(s: bytes, broken: bool): bytes
    decreases |s|
  {
    if s == [] then []
    else if CharAt(s) == 0 then (if broken then [] else REPLACEMENT) + Repaired(s[1..], true)
    else s[..CharAt(s)] + Repaired(s[CharAt(s)..], false)
  }

  /** A character before valid text. */
  lemma CharBefore(s: bytes, rest: bytes)
    requires CharAt(s) == |s| > 0 && Valid(rest)
    ensures Valid(s + rest)
  {
    CharExtends(s, rest);
    hide CharAt;
    assert (s + rest)[|s|..] == rest;
  }

  lemma CharExtends(s: bytes, rest: bytes)
    requires CharAt(s) == |s| > 0
    ensures CharAt(s + rest) == |s|
  {
    var whole := s + rest;
    assert forall i :: 0 <= i < |s| ==> whole[i] == s[i];
  }

  lemma ReplacementChar()
    ensures CharAt(REPLACEMENT) == |REPLACEMENT|
  {
  }

  /** A repair is valid, and leaves valid text alone. */
  lemma {:induction false} RepairedIs(s: bytes, broken: bool)
    ensures Valid(Repaired(s, broken))
    ensures Valid(s) ==> Repaired(s, broken) == s
    decreases |s|
  {
    hide CharAt;
    if s != [] {
      var n := CharAt(s);
      if n == 0 {
        RepairedIs(s[1..], true);
        ReplacementChar();
        CharBefore(REPLACEMENT, Repaired(s[1..], true));
        assert [] + Repaired(s[1..], true) == Repaired(s[1..], true);
      } else {
        RepairedIs(s[n..], false);
        CharPrefix(s, n);
        CharBefore(s[..n], Repaired(s[n..], false));
      }
    }
  }

  lemma CharKept(a: bytes, rest: bytes)
    requires CharAt(a) > 0
    ensures var n := CharAt(a);
            CharAt(a + rest) == n && (a + rest)[n..] == a[n..] + rest && (a + rest)[..n] == a[..n] && a == a[..n] + a[n..]
  {
    hide CharAt;
    var n := CharAt(a);
    CharPrefix(a, n);
    CharExtends(a[..n], a[n..] + rest);
    assert a + rest == a[..n] + (a[n..] + rest);
  }

  lemma {:induction false} ValidKept(a: bytes, rest: bytes)
    requires Valid(a)
    ensures Repaired(a + rest, false) == a + Repaired(rest, false)
    decreases |a|
  {
    hide CharAt;
    if a == [] {
      assert a + rest == rest && a + Repaired(rest, false) == Repaired(rest, false);
    } else {
      var n := CharAt(a);
      CharKept(a, rest);
      ValidKept(a[n..], rest);
      assert a[..n] + (a[n..] + Repaired(rest, false)) == a[..n] + a[n..] + Repaired(rest, false);
    }
  }

  /** No character begins anywhere in the run, which ends at a character or with
      the text. */
  ghost predicate BrokenRun(run: bytes, rest: bytes) {
    && (forall i :: 0 <= i < |run| ==> CharAt((run + rest)[i..]) == 0)
    && (rest != [] ==> CharAt(rest) > 0)
  }

  lemma RunTail(run: bytes, rest: bytes)
    requires run != [] && BrokenRun(run, rest)
    ensures CharAt(run + rest) == 0 && (run + rest)[1..] == run[1..] + rest && BrokenRun(run[1..], rest)
  {
    hide CharAt;
    assert (run + rest)[0..] == run + rest;
    forall i | 0 <= i < |run| - 1 ensures CharAt((run[1..] + rest)[i..]) == 0 {
      assert (run[1..] + rest)[i..] == (run + rest)[i + 1..];
    }
  }

  lemma {:induction false} RunSkipped(run: bytes, rest: bytes)
    requires BrokenRun(run, rest)
    ensures Repaired(run + rest, true) == Repaired(rest, false)
    decreases |run|
  {
    hide CharAt, BrokenRun;
    if run == [] {
      RestBegins(rest);
      assert run + rest == rest;
    } else {
      RunTail(run, rest);
      RunSkipped(run[1..], rest);
      assert [] + Repaired(run[1..] + rest, true) == Repaired(run[1..] + rest, true);
    }
  }

  lemma RestBegins(rest: bytes)
    requires BrokenRun([], rest)
    ensures Repaired(rest, true) == Repaired(rest, false)
  {
    hide CharAt;
  }

  /** Behind valid text a whole run of octets that belong to no character becomes
      one replacement character, and repairing goes on behind it. */
  lemma RunReplaced(a: bytes, run: bytes, rest: bytes)
    requires Valid(a) && run != [] && BrokenRun(run, rest)
    ensures Repaired(a + (run + rest), false) == a + (REPLACEMENT + Repaired(rest, false))
  {
    hide CharAt, Valid, BrokenRun;
    ValidKept(a, run + rest);
    RunTail(run, rest);
    RunSkipped(run[1..], rest);
  }

  // ---- Characters by their numbers ----

  /** A Unicode scalar value: no surrogate, and within the code space. */
  predicate Scalar(c: nat) {
    c < 0xd800 || 0xe000 <= c <= 0x10ffff
  }

  /** The encoding of a character, six bits to each octet behind the first
      (section 3 of RFC 3629). */
  function Encode(c: nat): bytes
    requires Scalar(c)
  {
    var (d, e, f) := (c / 0x40, c / 0x40 / 0x40, c / 0x40 / 0x40 / 0x40);
    if c < 0x80 then [c]
    else if c < 0x800 then [0xc0 + d, 0x80 + c % 0x40]
    else if c < 0x1_0000 then [0xe0 + e, 0x80 + d % 0x40, 0x80 + c % 0x40]
    else [0xf0 + f, 0x80 + e % 0x40, 0x80 + d % 0x40, 0x80 + c % 0x40]
  }

  predicate Scalars(cs: seq<nat>) {
    forall i :: 0 <= i < |cs| ==> Scalar(cs[i])
  }

  function EncodeAll(cs: seq<nat>): bytes
    requires Scalars(cs)
  {
    if cs == [] then [] else Encode(cs[0]) + EncodeAll(cs[1..])
  }

  lemma EncodedIsChar(c: nat)
    requires Scalar(c)
    ensures CharAt(Encode(c)) == |Encode(c)| > 0
  {
  }

  /** The number whose last six bits are those of a trailing octet. */
  function Shifted(high: nat, b: byte): (c: nat)
    requires Trailing(b)
    ensures c / 0x40 == high && 0x80 + c % 0x40 == b
  {
    high * 0x40 + (b as nat - 0x80)
  }

  /** The number of the character that s starts with. */
  function Decode(s: bytes): nat
    requires CharAt(s) > 0
  {
    var first := s[0] as nat;
    if CharAt(s) == 1 then first
    else if CharAt(s) == 2 then Shifted(first - 0xc0, s[1])
    else if CharAt(s) == 3 then Shifted(Shifted(first - 0xe0, s[1]), s[2])
    else Shifted(Shifted(Shifted(first - 0xf0, s[1]), s[2]), s[3])
  }

  lemma TwoRange(a: byte, b: byte)
    requires 0xc2 <= a <= 0xdf && Trailing(b)
    ensures 0x80 <= Shifted(a as nat - 0xc0, b) < 0x800
  {
  }

  lemma ThreeRange(a: byte, b: byte, c: byte)
    requires 0xe0 <= a <= 0xef && Trailing(b) && Trailing(c) && (a == 0xe0 ==> b >= 0xa0) && (a == 0xed ==> b <= 0x9f)
    ensures var n := Shifted(Shifted(a as nat - 0xe0, b), c); 0x800 <= n < 0x1_0000 && Scalar(n)
  {
  }

  lemma FourRange(a: byte, b: byte, c: byte, d: byte)
    requires 0xf0 <= a <= 0xf4 && Trailing(b) && Trailing(c) && Trailing(d) && (a == 0xf0 ==> b >= 0x90) && (a == 0xf4 ==> b <= 0x8f)
    ensures var n := Shifted(Shifted(Shifted(a as nat - 0xf0, b), c), d); 0x1_0000 <= n && Scalar(n)
  {
  }

  lemma DecodedEncodes(s: bytes)
    requires CharAt(s) > 0
    ensures Scalar(Decode(s)) && Encode(Decode(s)) == s[..CharAt(s)]
  {
    hide Shifted;
    if CharAt(s) == 2 {
      TwoRange(s[0], s[1]);
    } else if CharAt(s) == 3 {
      ThreeRange(s[0], s[1], s[2]);
    } else if CharAt(s) == 4 {
      FourRange(s[0], s[1], s[2], s[3]);
    }
  }

  lemma {:induction false} EncodedIsValid(cs: seq<nat>)
    requires Scalars(cs)
    ensures Valid(EncodeAll(cs))
    decreases |cs|
  {
    hide CharAt, Encode;
    if cs != [] {
      EncodedIsChar(cs[0]);
      EncodedIsValid(cs[1..]);
      CharBefore(Encode(cs[0]), EncodeAll(cs[1..]));
    }
  }

  lemma {:induction false} ValidIsEncoded(s: bytes) returns (cs: seq<nat>)
    requires Valid(s)
    ensures Scalars(cs) && EncodeAll(cs) == s
    decreases |s|
  {
    hide CharAt, Encode, Decode;
    if s == [] {
      cs := [];
    } else {
      DecodedEncodes(s);
      var later := ValidIsEncoded(s[CharAt(s)..]);
      cs := [Decode(s)] + later;
      assert cs[1..] == later && s == s[..CharAt(s)] + s[CharAt(s)..];
    }
  }

  /** Valid text is exactly a sequence of encoded scalar values. */
  lemma ValidIff(s: bytes)
    ensures Valid(s) <==> exists cs :: Scalars(cs) && EncodeAll(cs) == s
  {
    hide Valid, EncodeAll;
    if Valid(s) {
      var cs := ValidIsEncoded(s);
    }
    if cs :| Scalars(cs) && EncodeAll(cs) == s {
      EncodedIsValid(cs);
    }
  }
}
