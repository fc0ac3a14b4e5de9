/** Cutting text on a character boundary, two ways (bridge/mime.go:549-560,
    internal/mcpserver/handlers.go:98-116, internal/mcpserver/output.go:72-83). */
module Utf8Cuts {
  import opened Octets
  import opened Utf8

  /** A place where a character of valid text starts, or its end. */
  predicate Boundary(s: bytes, k: nat) {
    k == |s| || (k < |s| && !Trailing(s[k]))
  }

  /** Cutting valid text leaves valid text exactly at the boundaries. */
  lemma {:induction false} CutIff(s: bytes, k: nat)
    requires Valid(s) && k <= |s|
    ensures Valid(s[..k]) <==> Boundary(s, k)
    decreases |s|
  {
    if s == [] || k == 0 {
      assert s[..k] == [];
    } else {
      var n := CharAt(s);
      CharPrefix(s, k);
      if k >= n {
        CutIff(s[n..], k - n);
        assert s[..k][n..] == s[n..][..k - n];
      }
    }
  }

  /** No boundary is more than three octets away. */
  lemma {:induction false} BoundaryNear(s: bytes, k: nat)
    requires Valid(s) && k <= |s|
    ensures exists j :: 0 <= j <= k && k - j <= 3 && Boundary(s, j)
    decreases |s|
  {
    if s == [] || k == 0 {
      assert Boundary(s, 0);
    } else {
      var n := CharAt(s);
      if k < n {
        assert Boundary(s, 0);
      } else {
        BoundaryNear(s[n..], k - n);
        var j :| 0 <= j <= k - n && k - n - j <= 3 && Boundary(s[n..], j);
        assert Boundary(s, j + n);
      }
    }
  }

  // ---- The two cutters ----

  /** Text within the limit is repaired; from longer text octets are dropped at
      the end until what is left is valid: the longest valid beginning within
      the limit. */
  method TruncateUtf8(value: bytes, limit: nat) returns (cut: bytes, truncated: bool)
    ensures truncated <==> |value| > limit
    ensures Valid(cut)
    ensures !truncated ==> cut == Repaired(value, false) && (Valid(value) ==> cut == value)
    ensures truncated ==> cut <= value && |cut| <= limit
    ensures truncated ==> forall k :: |cut| < k <= limit ==> !Valid(value[..k])
  {
    if |value| <= limit {
      RepairedIs(value, false);
      return Repaired(value, false), false;
    }
    var n := limit;
    while n > 0 && !Valid(value[..n])
      invariant 0 <= n <= limit && forall k :: n < k <= limit ==> !Valid(value[..k])
    {
      n := n - 1;
    }
    RepairedIs(value[..n], false);
    return Repaired(value[..n], false), true;
  }

  /** Steps back from the limit to the start of a character. */
  method CutToBoundary(text: bytes, limit: nat) returns (cut: bytes)
    requires limit < |text|
    ensures cut <= text && |cut| <= limit
    ensures Valid(text) ==> Valid(cut) && limit - |cut| <= 3 && forall k :: |cut| < k <= limit ==> !Valid(text[..k])
  {
    var boundary := limit;
    while boundary > 0 && Trailing(text[boundary])
      invariant 0 <= boundary <= limit && forall k :: boundary < k <= limit ==> !Boundary(text, k)
    {
      boundary := boundary - 1;
    }
    cut := text[..boundary];
    if Valid(text) {
      FirstStarts(text);
      CutIff(text, boundary);
      BoundaryNear(text, limit);
      forall k | boundary < k <= limit ensures !Valid(text[..k]) {
        CutIff(text, k);
      }
    }
  }

  lemma FirstStarts(s: bytes)
    requires Valid(s)
    ensures Boundary(s, 0)
  {
  }

  /** On valid text the two cutters agree. */
  lemma CuttersAgree(text: bytes, limit: nat, a: bytes, b: bytes)
    requires a <= text && b <= text && |a| <= limit < |text| && |b| <= limit && Valid(a) && Valid(b)
    requires forall k :: |a| < k <= limit ==> !Valid(text[..k])
    requires forall k :: |b| < k <= limit ==> !Valid(text[..k])
    ensures a == b
  {
    assert a == text[..|a|] && b == text[..|b|];
  }

  /** Both cutters on one text. */
  method BothCuts(text: bytes, limit: nat) returns (a: bytes, b: bytes)
    requires Valid(text) && limit < |text|
    ensures a == b && Valid(a) && |a| <= limit <= |a| + 3
  {
    var truncated;
    a, truncated := TruncateUtf8(text, limit);
    b := CutToBoundary(text, limit);
    CuttersAgree(text, limit, a, b);
  }

  /** A sender within its bound; malformed text is left out altogether. */
  method BoundedSender(sender: bytes, limit: nat) returns (cut: bytes, capped: bool)
    ensures !Valid(sender) ==> cut == [] && !capped
    ensures Valid(sender) ==> cut <= sender && Valid(cut) && (capped <==> |sender| > limit) && |cut| <= limit
    ensures Valid(sender) && !capped ==> cut == sender
    ensures capped ==> limit - |cut| <= 3 && forall k :: |cut| < k <= limit ==> !Valid(sender[..k])
  {
    if !Valid(sender) {
      return [], false;
    }
    if |sender| <= limit {
      return sender, false;
    }
    cut := CutToBoundary(sender, limit);
    capped := true;
  }

  /** The trailing half dropped, on a boundary: strictly less text. */
  method HalveRunes(value: bytes) returns (half: bytes)
    ensures value == [] ==> half == []
    ensures value != [] ==> half < value && |half| <= |value| / 2
    ensures Valid(value) ==> Halved(value, half)
  {
    if value == [] {
      return [];
    }
    half := CutToBoundary(value, |value| / 2);
  }

  /** The longest valid beginning within half of the text, and near to half. */
  ghost predicate Halved(value: bytes, half: bytes) {
    && half <= value && Valid(half) && |half| <= |value| / 2 <= |half| + 3
    && forall k :: |half| < k <= |value| / 2 ==> !Valid(value[..k])
  }
}
