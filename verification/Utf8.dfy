/** Which byte strings are the bytes of a string: well-formed UTF-8, as section 4 of RFC 3629 has it. */
module Utf8 {
  import opened Common
  import opened Orders

  predicate Tail(c: byte) { 0x80 <= c < 0xc0 }

  /** The second byte of a character: a tail byte, with the overlong forms, the surrogates and what lies beyond
      U+10FFFF excluded. */
  predicate Second(first: byte, c: byte) {
    && Tail(c)
    && (first == 0xe0 ==> c >= 0xa0) && (first == 0xed ==> c < 0xa0)
    && (first == 0xf0 ==> c >= 0x90) && (first == 0xf4 ==> c < 0x90)
  }

  /** How many bytes the character at the front takes; none if there is no well-formed one. */
  function CharLength(b: bytes): (n: nat)
    ensures n <= |b|
    ensures forall i :: 1 <= i < n ==> b[i] >= 0x80
  {
    if |b| >= 1 && b[0] < 0x80 then 1
    else if |b| >= 2 && 0xc2 <= b[0] < 0xe0 && Second(b[0], b[1]) then 2
    else if |b| >= 3 && 0xe0 <= b[0] < 0xf0 && Second(b[0], b[1]) && Tail(b[2]) then 3
    else if |b| >= 4 && 0xf0 <= b[0] < 0xf5 && Second(b[0], b[1]) && Tail(b[2]) && Tail(b[3]) then 4
    else 0
  }

  predicate Text(b: bytes)
    decreases |b|
  {
    b == [] || (CharLength(b) > 0 && Text(b[CharLength(b)..]))
  }

  lemma {:induction false} AsciiIsText(b: bytes)
    requires forall c :: c in b ==> c < 0x80
    ensures Text(b)
  {
    if b != [] {
      assert b[0] in b && forall c :: c in b[1..] ==> c in b;
      AsciiIsText(b[1..]);
    }
  }

  /** A string may be cut at, and joined by, any ASCII character. */
  lemma {:induction false} TextCut(a: bytes, c: byte, rest: bytes)
    requires c < 0x80
    ensures Text(a + [c] + rest) <==> Text(a) && Text(rest)
    decreases |a|
  {
    var b := a + [c] + rest;
    if a == [] {
      assert b[1..] == rest;
    } else {
      var n := CharLength(b);
      assert b[|a|] == c;
      assert CharLength(a) == n;
      if n > 0 {
        assert b[n..] == a[n..] + [c] + rest;
        TextCut(a[n..], c, rest);
      }
    }
  }

  lemma TextBefore(b: bytes, j: nat)
    requires Text(b) && j < |b| && b[j] < 0x80
    ensures Text(b[..j])
  {
    Around(b, j);
    TextCut(b[..j], b[j], b[j + 1..]);
  }

  lemma TextAfter(b: bytes, i: nat)
    requires Text(b) && i < |b| && b[i] < 0x80
    ensures Text(b[i + 1..])
  {
    Around(b, i);
    TextCut(b[..i], b[i], b[i + 1..]);
  }

  /** What lies between two ASCII characters of a string, or at its front before one, is a string. */
  lemma TextBetween(b: bytes, i: nat, j: nat)
    requires Text(b) && i <= j < |b| && b[j] < 0x80 && (i == 0 || b[i - 1] < 0x80)
    ensures Text(b[i..j])
  {
    TextBefore(b, j);
    if i > 0 {
      TextAfter(b[..j], i - 1);
      assert b[..j][i..] == b[i..j];
    } else {
      assert b[..j] == b[0..j];
    }
  }
}
