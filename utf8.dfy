/**
 * The byte view of a Rust `String`. A `String` stores its text as UTF-8, and
 * `String::len()` is the number of those bytes, not the number of characters.
 * Dafny's `char` is a Unicode scalar value. The contracts below fix what the
 * handler observes of a `String`'s bytes: how many there are per character, and
 * the lead/continuation shape of UTF-8. The byte values themselves are fixed
 * only by the bodies, following section 3 of RFC 3629.
 */
module Utf8 {

  newtype byte = x: int | 0 <= x < 0x100

  /** A character that UTF-8 stores in a single byte. */
  predicate IsAscii(c: char) {
    (c as int) < 0x80
  }

  predicate AllAscii(s: string) {
    forall i :: 0 <= i < |s| ==> IsAscii(s[i])
  }

  /** The UTF-8 bytes of one scalar value: their count and lead/continuation shape are stated below. */
  function EncodeChar(c: char): (bs: seq<byte>)
    ensures 1 <= |bs| <= 4
    ensures |bs| == 1 <==> IsAscii(c)
    ensures |bs| == 2 <==> 0x80 <= c as int < 0x800
    ensures |bs| == 3 <==> 0x800 <= c as int < 0x1_0000
    ensures |bs| == 4 <==> 0x1_0000 <= c as int
    // a leading byte is never a continuation byte (10xxxxxx)
    ensures !(0x80 <= bs[0] < 0xC0)
    ensures forall i :: 1 <= i < |bs| ==> 0x80 <= bs[i] < 0xC0
  {
    var n := c as int;
    if n < 0x80 then
      [n as byte]
    else if n < 0x800 then
      [(0xC0 + n / 0x40) as byte, (0x80 + n % 0x40) as byte]
    else if n < 0x1_0000 then
      [(0xE0 + n / 0x1000) as byte, (0x80 + (n / 0x40) % 0x40) as byte, (0x80 + n % 0x40) as byte]
    else
      [(0xF0 + n / 0x4_0000) as byte, (0x80 + (n / 0x1000) % 0x40) as byte,
       (0x80 + (n / 0x40) % 0x40) as byte, (0x80 + n % 0x40) as byte]
  }

  /** The number of bytes UTF-8 uses for one scalar value, by code-point range. */
  function CharWidth(c: char): nat {
    var n := c as int;
    if n < 0x80 then 1 else if n < 0x800 then 2 else if n < 0x1_0000 then 3 else 4
  }

  /** The sum of the widths of the characters of `s`: what `String::len()` returns. */
  function Width(s: string): nat {
    if s == [] then 0 else CharWidth(s[0]) + Width(s[1..])
  }

  /** The bytes of a `String` holding the text `s`. */
  function Encode(s: string): (bs: seq<byte>)
    ensures |bs| == Width(s)
    ensures |s| <= |bs| <= 4 * |s|
    ensures AllAscii(s) ==> |bs| == |s|
    ensures AllAscii(s) ==> forall i :: 0 <= i < |s| ==> bs[i] as int == s[i] as int
    ensures |bs| == |s| ==> AllAscii(s)
  {
    if s == [] then [] else EncodeChar(s[0]) + Encode(s[1..])
  }

  /** Encoding works character by character: the text of a concatenation is the concatenation of the texts. */
  lemma {:induction false} EncodeAppend(s: string, t: string)
    ensures Encode(s + t) == Encode(s) + Encode(t)
  {
    if s == [] {
      assert s + t == t;
    } else {
      var u := s + t;
      assert u[0] == s[0] && u[1..] == s[1..] + t;
      EncodeAppend(s[1..], t);
      calc {
        Encode(u);
        EncodeChar(s[0]) + Encode(s[1..] + t);
        EncodeChar(s[0]) + (Encode(s[1..]) + Encode(t));
        (EncodeChar(s[0]) + Encode(s[1..])) + Encode(t);
      }
    }
  }

  /** The byte length of a concatenation is the sum of the byte lengths. */
  lemma WidthAppend(s: string, t: string)
    ensures Width(s + t) == Width(s) + Width(t)
  {
    EncodeAppend(s, t);
  }
}
