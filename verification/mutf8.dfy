/**
 * Java's modified UTF-8 as `cesu8::to_java_cesu8` writes it, the string
 * form of both NBT codecs: NUL takes two bytes (0xC0 0x80), the other
 * characters of the Basic Multilingual Plane their usual one to three
 * UTF-8 bytes, and a supplementary character is written as its UTF-16
 * surrogate pair, three bytes per surrogate.
 *
 * The decoder, `cesu8::from_java_cesu8`, is a parameter of the readers;
 * `Inverts` states that it gives back an encoded string.
 */
module Mutf8 {
  import opened Bytes

  /** A code unit below 0x10000 in the three-byte form. */
  function Three(u: nat): (r: seq<byte>)
    requires u < 0x10000
    ensures |r| == 3
  {
    [0xE0 + u / 4096, 0x80 + (u / 64) % 64, 0x80 + u % 64]
  }

  /** The bytes one character is written as. */
  function EncodeChar(c: char): (r: seq<byte>)
    ensures 1 <= |r| <= 6
  {
    var u := c as int;
    if u == 0 then [0xC0, 0x80]
    else if u < 0x80 then [u]
    else if u < 0x800 then [0xC0 + u / 64, 0x80 + u % 64]
    else if u < 0x10000 then Three(u)
    else Three(0xD800 + (u - 0x10000) / 1024) + Three(0xDC00 + (u - 0x10000) % 1024)
  }

  /** `to_java_cesu8`: the characters' bytes, in order. */
  function Encode(s: string): seq<byte>
    decreases |s|
  {
    if |s| == 0 then [] else EncodeChar(s[0]) + Encode(s[1..])
  }

  /** The bytes of one character in standard UTF-8. */
  function Utf8Width(c: char): nat
  {
    var u := c as int;
    if u < 0x80 then 1 else if u < 0x800 then 2 else if u < 0x10000 then 3 else 4
  }

  /** `str::len`: the length of the string's standard UTF-8 form. */
  function Utf8Len(s: string): nat
    decreases |s|
  {
    if |s| == 0 then 0 else Utf8Width(s[0]) + Utf8Len(s[1..])
  }

  /** No NUL and no supplementary character: the two forms are equally long. */
  predicate Plain(s: string)
  {
    forall i :: 0 <= i < |s| ==> 0 < s[i] as int < 0x10000
  }

  /** `decode` gives back the string whose bytes it is handed. */
  predicate Inverts(decode: seq<byte> -> Option<string>, s: string)
  {
    decode(Encode(s)) == Some(s)
  }

  /**
   * The modified form is never shorter than standard UTF-8, and exactly
   * as long when the string has no NUL and no supplementary character.
   */
  lemma {:induction false} EncodeLength(s: string)
    ensures |Encode(s)| >= Utf8Len(s)
    ensures |Encode(s)| == Utf8Len(s) <==> Plain(s)
    decreases |s|
  {
    if |s| > 0 {
      EncodeLength(s[1..]);
      assert Plain(s) <==> 0 < s[0] as int < 0x10000 && Plain(s[1..]) by {
        if 0 < s[0] as int < 0x10000 && Plain(s[1..]) {
          forall i | 0 <= i < |s|
            ensures 0 < s[i] as int < 0x10000
          {
            if i > 0 {
              assert s[i] == s[1..][i - 1];
            }
          }
        }
        if Plain(s) {
          forall i | 0 <= i < |s| - 1
            ensures 0 < s[1..][i] as int < 0x10000
          {
            assert s[1..][i] == s[i + 1];
          }
        }
      }
    }
  }

  /** Writing a concatenation writes one string after the other. */
  lemma {:induction false} EncodeAppend(a: string, b: string)
    ensures Encode(a + b) == Encode(a) + Encode(b)
    decreases |a|
  {
    if |a| == 0 {
      assert a + b == b;
    } else {
      assert (a + b)[1..] == a[1..] + b;
      EncodeAppend(a[1..], b);
    }
  }

  /** NUL and a supplementary character: the modified form is longer than `str::len`. */
  lemma LengthsDiffer()
    ensures Encode("\0") == [0xC0, 0x80] && Utf8Len("\0") == 1
    ensures |Encode("\U{1F600}")| == 6 && Utf8Len("\U{1F600}") == 4
  {
    assert Encode("\0") == EncodeChar('\0') + Encode("");
    assert Encode("\U{1F600}") == EncodeChar('\U{1F600}') + Encode("");
  }
}
