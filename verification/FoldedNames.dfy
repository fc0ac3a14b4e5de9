/** When two names are one but for case, as the source's library folds it: each
    ASCII letter as a capital or a small letter, S also as the long s and K also
    as the Kelvin sign. */
module FoldedNames {
  import opened Octets

  /** The letter or mark c, written so. */
  predicate Writes(piece: bytes, c: byte) {
    || piece == [c]
    || (0x41 <= c <= 0x5a && piece == [c + 0x20])
    || (c == 0x53 && piece == [0xc5, 0xbf])
    || (c == 0x4b && piece == [0xe2, 0x84, 0xaa])
  }

  /** Every letter and mark of the word in turn. */
  ghost predicate Spells(pieces: seq<bytes>, word: bytes) {
    |pieces| == |word| && forall i :: 0 <= i < |word| ==> Writes(pieces[i], word[i])
  }

  function Together(pieces: seq<bytes>): bytes {
    if pieces == [] then [] else pieces[0] + Together(pieces[1..])
  }

  /** ASCII without small letters. */
  predicate Upright(word: bytes) {
    forall i :: 0 <= i < |word| ==> word[i] < 0x80 && !(0x61 <= word[i] <= 0x7a)
  }

  lemma OneFolds(piece: bytes, c: byte, rest: bytes, word: bytes)
    requires Writes(piece, c) && c < 0x80 && !(0x61 <= c <= 0x7a) && FoldIs(rest, word)
    ensures FoldIs(piece + rest, [c] + word)
  {
    var s, t := piece + rest, [c] + word;
    assert s[|piece|..] == rest && t[1..] == word;
  }

  lemma {:induction false} SpelledFolds(pieces: seq<bytes>, word: bytes)
    requires Upright(word) && Spells(pieces, word)
    ensures FoldIs(Together(pieces), word)
    decreases |word|
  {
    hide FoldIs, Writes;
    if word == [] {
      NothingFolds();
    } else {
      SpelledFolds(pieces[1..], word[1..]);
      OneFolds(pieces[0], word[0], Together(pieces[1..]), word[1..]);
      assert [word[0]] + word[1..] == word;
    }
  }

  lemma NothingFolds()
    ensures FoldIs([], [])
  {
  }

  /** How many octets of the name write the first letter of the word. */
  lemma FirstFolded(name: bytes, word: bytes) returns (k: nat)
    requires word != [] && Upright(word) && FoldIs(name, word)
    ensures 0 < k <= |name| && Writes(name[..k], word[0]) && FoldIs(name[k..], word[1..])
  {
    var c := word[0];
    if |name| >= 1 && Upper(name[0]) == c && FoldIs(name[1..], word[1..]) {
      k := 1;
    } else if |name| >= 2 && name[0] == 0xc5 && name[1] == 0xbf && c == 0x53 && FoldIs(name[2..], word[1..]) {
      k := 2;
    } else {
      k := 3;
    }
  }

  lemma {:induction false} FoldedSpells(name: bytes, word: bytes) returns (pieces: seq<bytes>)
    requires Upright(word) && FoldIs(name, word)
    ensures Spells(pieces, word) && Together(pieces) == name
    decreases |word|
  {
    hide Writes;
    if word == [] {
      pieces := [];
    } else {
      var k := FirstFolded(name, word);
      var later := FoldedSpells(name[k..], word[1..]);
      pieces := [name[..k]] + later;
      assert pieces[1..] == later && name == name[..k] + name[k..];
    }
  }

  /** A name folds to a word exactly when it writes it letter by letter. */
  lemma FoldIsSpelled(name: bytes, word: bytes)
    requires Upright(word)
    ensures FoldIs(name, word) <==> exists pieces :: Spells(pieces, word) && Together(pieces) == name
  {
    hide FoldIs, Spells, Together;
    if FoldIs(name, word) {
      var pieces := FoldedSpells(name, word);
    }
    if pieces :| Spells(pieces, word) && Together(pieces) == name {
      SpelledFolds(pieces, word);
    }
  }
}
