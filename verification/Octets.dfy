/** Octets, ASCII character constants and the small byte-string vocabulary of
    the IMAP readers: case-insensitive names and decimal numbers. */
module Octets {

  type byte = b: int | 0 <= b < 256
  type bytes = seq<byte>

  const NUL: byte := 0x00
  const TAB: byte := 0x09
  const LF: byte := 0x0a
  const CR: byte := 0x0d
  const SP: byte := 0x20
  const QUOTE: byte := 0x22
  const PERCENT: byte := 0x25
  const LPAREN: byte := 0x28
  const RPAREN: byte := 0x29
  const STAR: byte := 0x2a
  const PLUS: byte := 0x2b
  const COMMA: byte := 0x2c
  const ZERO: byte := 0x30
  const NINE: byte := 0x39
  const COLON: byte := 0x3a
  const LBRACKET: byte := 0x5b
  const BACKSLASH: byte := 0x5c
  const RBRACKET: byte := 0x5d
  const LBRACE: byte := 0x7b
  const RBRACE: byte := 0x7d
  const DEL: byte := 0x7f

  const CRLF: bytes := [CR, LF]

  const MAX_UINT32: nat := 0xffff_ffff

  predicate IsDigit(b: byte) {
    ZERO <= b <= NINE
  }

  predicate AllDigits(s: bytes) {
    forall i :: 0 <= i < |s| ==> IsDigit(s[i])
  }

  /** ASCII upper case; every other octet is unchanged. */
  function Upper(b: byte): byte {
    if 0x61 <= b <= 0x7a then b - 0x20 else b
  }

  /** Whether the upper case of name is the ASCII word target. Upper-casing
      follows Unicode, under which the two-octet letters U+017F and U+0131
      become the ASCII letters S and I; no other octet sequence outside ASCII
      has an upper case in ASCII. */
  predicate UpperIs(name: bytes, target: bytes)
    decreases |name|
  {
    if target == [] then
      name == []
    else
      || (|name| >= 1 && Upper(name[0]) == target[0] && UpperIs(name[1..], target[1..]))
      || (|name| >= 2 && name[0] == 0xc5 && name[1] == 0xbf && target[0] == 0x53 && UpperIs(name[2..], target[1..]))
      || (|name| >= 2 && name[0] == 0xc4 && name[1] == 0xb1 && target[0] == 0x49 && UpperIs(name[2..], target[1..]))
  }

  /** Unicode simple case folding to an upper-case ASCII word: besides ASCII
      case U+017F folds to S and U+212A folds to K. */
  predicate FoldIs(name: bytes, target: bytes)
    decreases |name|
  {
    if target == [] then name == []
    else
      || (|name| >= 1 && Upper(name[0]) == target[0] && FoldIs(name[1..], target[1..]))
      || (|name| >= 2 && name[0] == 0xc5 && name[1] == 0xbf && target[0] == 0x53 && FoldIs(name[2..], target[1..]))
      || (|name| >= 3 && name[0] == 0xe2 && name[1] == 0x84 && name[2] == 0xaa && target[0] == 0x4b && FoldIs(name[3..], target[1..]))
  }

  lemma {:induction false} UppersToItself(name: bytes)
    requires forall i :: 0 <= i < |name| ==> Upper(name[i]) == name[i]
    ensures UpperIs(name, name)
    decreases |name|
  {
    if name != [] {
      UppersToItself(name[1..]);
    }
  }

  lemma {:induction false} FoldsToItself(name: bytes)
    requires forall i :: 0 <= i < |name| ==> Upper(name[i]) == name[i]
    ensures FoldIs(name, name)
    decreases |name|
  {
    if name != [] {
      FoldsToItself(name[1..]);
    }
  }

  /** The value of a digit string, most significant digit first. */
  function DecimalValue(s: bytes): nat
    requires AllDigits(s)
  {
    if s == [] then 0 else DecimalValue(s[..|s| - 1]) * 10 + (s[|s| - 1] - ZERO)
  }

  /** The shortest decimal spelling of n. */
  function Decimal(n: nat): (s: bytes)
    ensures |s| > 0 && AllDigits(s)
    ensures s[0] == ZERO <==> n == 0
    ensures n == 0 ==> |s| == 1
  {
    if n < 10 then [ZERO + n] else Decimal(n / 10) + [ZERO + n % 10]
  }

  lemma {:induction false} DecimalRoundTrip(n: nat)
    ensures DecimalValue(Decimal(n)) == n
  {
    if n < 10 {
      var s: bytes := [ZERO + n];
      assert Decimal(n) == s && s[..0] == [];
    } else {
      DecimalRoundTrip(n / 10);
      var s := Decimal(n);
      assert s[..|s| - 1] == Decimal(n / 10);
    }
  }

  lemma DecimalInjective(m: nat, n: nat)
    requires Decimal(m) == Decimal(n)
    ensures m == n
  {
    DecimalRoundTrip(m);
    DecimalRoundTrip(n);
  }

  function Pow10(k: nat): nat {
    if k == 0 then 1 else 10 * Pow10(k - 1)
  }

  lemma {:induction false} DecimalLength(n: nat, k: nat)
    requires k >= 1 && n < Pow10(k)
    ensures |Decimal(n)| <= k
  {
    if n >= 10 {
      assert k >= 2;
      DecimalLength(n / 10, k - 1);
    }
  }

  /** Every uint32 is spelled with at most ten digits. */
  lemma Uint32Length(n: nat)
    requires n <= MAX_UINT32
    ensures |Decimal(n)| <= 10
  {
    assert Pow10(10) == 10_000_000_000;
    DecimalLength(n, 10);
  }

  /** The index of the first b in s, or |s| when there is none. */
  function Find(s: bytes, b: byte): (i: nat)
    ensures i <= |s|
    ensures i < |s| ==> s[i] == b
    ensures forall j :: 0 <= j < i ==> s[j] != b
  {
    if s == [] || s[0] == b then 0 else 1 + Find(s[1..], b)
  }

  lemma {:induction false} FindAt(tag: bytes, rest: bytes, b: byte)
    requires b !in tag
    ensures Find(tag + [b] + rest, b) == |tag|
  {
    var s := tag + [b] + rest;
    if tag != [] {
      assert s[0] == tag[0] && s[1..] == tag[1..] + [b] + rest;
      FindAt(tag[1..], rest, b);
    }
  }

  predicate HasPrefix(s: bytes, prefix: bytes) {
    |prefix| <= |s| && s[..|prefix|] == prefix
  }

  predicate HasSuffix(s: bytes, suffix: bytes) {
    |suffix| <= |s| && s[|s| - |suffix|..] == suffix
  }

  /** The longest leading digit-free reading of a canonical decimal number: a
      nonempty digit string without a leading zero, or a lone zero. */
  predicate Canonical(s: bytes) {
    |s| > 0 && AllDigits(s) && (s[0] == ZERO ==> |s| == 1)
  }

  lemma {:induction false} CanonicalIsDecimal(s: bytes)
    requires Canonical(s)
    ensures s == Decimal(DecimalValue(s))
  {
    if |s| == 1 {
      assert s[..0] == [];
      assert DecimalValue(s[..0]) == 0;
      assert s == [s[0]];
    } else {
      var init := s[..|s| - 1];
      CanonicalIsDecimal(init);
      DecimalPositive(init);
      assert s == init + [s[|s| - 1]];
    }
  }

  lemma {:induction false} DecimalPositive(s: bytes)
    requires |s| > 0 && AllDigits(s) && s[0] != ZERO
    ensures DecimalValue(s) > 0
  {
    if |s| == 1 {
      assert s[..0] == [];
    } else {
      DecimalPositive(s[..|s| - 1]);
    }
  }
}
