/**
 * UTF-8 as `String::from_utf8_lossy` reads it: every maximal invalid piece becomes one replacement
 * character. The well-formed sequences are those of section 4 of RFC 3629.
 */
module Utf8 {
  import opened Prelude

  const REPLACEMENT: seq<byte> := [0xEF, 0xBF, 0xBD]

  /** A byte that continues a character. */
  predicate Continuation(b: byte) {
    0x80 <= b <= 0xBF
  }

  /** How many bytes a character that starts with `b` has; zero when none does. */
  function Length(b: byte): (n: nat)
    ensures n <= 4
  {
    if b < 0x80 then 1
    else if 0xC2 <= b <= 0xDF then 2
    else if 0xE0 <= b <= 0xEF then 3
    else if 0xF0 <= b <= 0xF4 then 4
    else 0
  }

  /** The second byte is restricted after some first bytes: no overlong forms, surrogates or values past U+10FFFF. */
  predicate Second(first: byte, b: byte) {
    Continuation(b)
    && (first == 0xE0 ==> 0xA0 <= b)
    && (first == 0xED ==> b <= 0x9F)
    && (first == 0xF0 ==> 0x90 <= b)
    && (first == 0xF4 ==> b <= 0x8F)
  }

  /** How far the bytes follow the form of a character, up to its whole length. */
  function Matched(s: seq<byte>): (n: nat)
    requires s != []
    ensures n <= |s| && n <= Length(s[0])
  {
    if Length(s[0]) < 2 then Length(s[0])
    else if |s| < 2 || !Second(s[0], s[1]) then 1
    else if Length(s[0]) < 3 || |s| < 3 || !Continuation(s[2]) then 2
    else if Length(s[0]) < 4 || |s| < 4 || !Continuation(s[3]) then 3
    else 4
  }

  /** Whether a whole character stands at the front. */
  predicate StartsWell(s: seq<byte>)
    requires s != []
  {
    Length(s[0]) > 0 && Matched(s) == Length(s[0])
  }

  /** The bytes read as one piece: a character, or a maximal piece that is none. */
  function Piece(s: seq<byte>): (n: nat)
    requires s != []
    ensures 0 < n <= |s|
  {
    if Matched(s) == 0 then 1 else Matched(s)
  }

  predicate Valid(s: seq<byte>)
    decreases |s|
  {
    s == [] || (StartsWell(s) && Valid(s[Piece(s)..]))
  }

  function Lossy(s: seq<byte>): seq<byte>
    decreases |s|
  {
    if s == [] then []
    else (if StartsWell(s) then s[..Piece(s)] else REPLACEMENT) + Lossy(s[Piece(s)..])
  }

  lemma CharacterInFront(c: seq<byte>, rest: seq<byte>)
    requires c != [] && StartsWell(c) && Piece(c) == |c|
    ensures StartsWell(c + rest) && Piece(c + rest) == |c| && (c + rest)[|c|..] == rest
  {
    var s := c + rest;
    assert s[0] == c[0] && (|c| > 1 ==> s[1] == c[1]) && (|c| > 2 ==> s[2] == c[2]) && (|c| > 3 ==> s[3] == c[3]);
  }

  lemma PieceIsACharacter(s: seq<byte>)
    requires s != [] && StartsWell(s)
    ensures StartsWell(s[..Piece(s)]) && Piece(s[..Piece(s)]) == Piece(s)
  {
  }

  /** Whatever the bytes, the result is well-formed. */
  lemma {:induction false} LossyIsValid(s: seq<byte>)
    ensures Valid(Lossy(s))
    decreases |s|
  {
    if s != [] {
      var rest := Lossy(s[Piece(s)..]);
      LossyIsValid(s[Piece(s)..]);
      if StartsWell(s) {
        PieceIsACharacter(s);
        CharacterInFront(s[..Piece(s)], rest);
      } else {
        CharacterInFront(REPLACEMENT, rest);
      }
    }
  }

  /** It is the input itself exactly when the input is well-formed. */
  lemma LossyKeepsExactlyTheValid(s: seq<byte>)
    ensures Lossy(s) == s <==> Valid(s)
  {
    LossyIsValid(s);
    if Valid(s) {
      LossyKeepsValid(s);
    }
  }

  lemma {:induction false} LossyKeepsValid(s: seq<byte>)
    requires Valid(s)
    ensures Lossy(s) == s
    decreases |s|
  {
    if s != [] {
      LossyKeepsValid(s[Piece(s)..]);
      assert s == s[..Piece(s)] + s[Piece(s)..];
    }
  }
}
