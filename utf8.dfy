/**
 * The bytes of a Rust `&str`: `str::as_bytes` yields the UTF-8 encoding of
 * the text. Dafny's `char` is a Unicode scalar value, so every character has
 * exactly one encoding of one to four bytes.
 */
module Utf8 {

  type byte = x: int | 0 <= x < 256

  /** Number of bytes UTF-8 uses for the code point `n`. */
  function Width(n: int): (w: nat)
    ensures 1 <= w <= 4
  {
    if n < 0x80 then 1 else if n < 0x800 then 2 else if n < 0x1_0000 then 3 else 4
  }

  /** The UTF-8 encoding of one character. */
  function EncodeChar(c: char): (bs: seq<byte>)
    ensures |bs| == Width(c as int)
  {
    var n := c as int;
    if n < 0x80 then [n]
    else if n < 0x800 then [0xC0 + n / 64, 0x80 + n % 64]
    else if n < 0x1_0000 then [0xE0 + n / 4096, 0x80 + (n / 64) % 64, 0x80 + n % 64]
    else [0xF0 + n / 262144, 0x80 + (n / 4096) % 64, 0x80 + (n / 64) % 64, 0x80 + n % 64]
  }

  /** Width of an encoded character, read from its leading byte. */
  function WidthOfLead(b: byte): nat
  {
    if b < 0x80 then 1 else if b < 0xE0 then 2 else if b < 0xF0 then 3 else 4
  }

  /** The code point that a well-formed encoding of one character stands for. */
  function CodePoint(bs: seq<byte>): int
    requires 1 <= |bs| <= 4
  {
    var b0 := bs[0] as int;
    if |bs| == 1 then b0
    else if |bs| == 2 then (b0 - 0xC0) * 64 + (bs[1] as int - 0x80)
    else if |bs| == 3 then (b0 - 0xE0) * 4096 + (bs[1] as int - 0x80) * 64 + (bs[2] as int - 0x80)
    else (b0 - 0xF0) * 262144 + (bs[1] as int - 0x80) * 4096 + (bs[2] as int - 0x80) * 64 + (bs[3] as int - 0x80)
  }

  /** The encoding of a string: the encodings of its characters, in order. */
  function Encode(s: string): (bs: seq<byte>)
    ensures |bs| >= |s|
    ensures s == [] <==> bs == []
  {
    if s == [] then [] else EncodeChar(s[0]) + Encode(s[1..])
  }

  /** The leading byte of a character's encoding tells how long it is. */
  lemma LeadGivesWidth(c: char)
    ensures WidthOfLead(EncodeChar(c)[0]) == |EncodeChar(c)|
  {
  }

  /** Decoding the encoding of a character gives the character back. */
  lemma CodePointOfEncodeChar(c: char)
    ensures CodePoint(EncodeChar(c)) == c as int
  {
    var n := c as int;
    if n >= 0x1_0000 {
      assert n == (n / 262144) * 262144 + ((n / 4096) % 64) * 4096 + ((n / 64) % 64) * 64 + n % 64;
    } else if n >= 0x800 {
      assert n == (n / 4096) * 4096 + ((n / 64) % 64) * 64 + n % 64;
    }
  }

  lemma EncodeCharInjective(c: char, d: char)
    requires EncodeChar(c) == EncodeChar(d)
    ensures c == d
  {
    CodePointOfEncodeChar(c);
    CodePointOfEncodeChar(d);
  }

  /** Distinct strings have distinct encodings. */
  lemma {:induction false} EncodeInjective(s: string, t: string)
    requires Encode(s) == Encode(t)
    ensures s == t
  {
    if s != [] {
      var es, et := EncodeChar(s[0]), EncodeChar(t[0]);
      LeadGivesWidth(s[0]);
      LeadGivesWidth(t[0]);
      assert Encode(s)[0] == es[0] && Encode(t)[0] == et[0];
      assert |es| == |et|;
      assert es == Encode(s)[..|es|] && et == Encode(t)[..|et|];
      EncodeCharInjective(s[0], t[0]);
      assert Encode(s[1..]) == Encode(s)[|es|..] == Encode(t)[|et|..] == Encode(t[1..]);
      EncodeInjective(s[1..], t[1..]);
      assert s == [s[0]] + s[1..];
      assert t == [t[0]] + t[1..];
    }
  }

  /** Characters below 0x80 are encoded as themselves: ASCII text is its own byte string. */
  lemma {:induction false} EncodeAscii(s: string)
    requires forall i :: 0 <= i < |s| ==> s[i] as int < 0x80
    ensures |Encode(s)| == |s|
    ensures forall i :: 0 <= i < |s| ==> Encode(s)[i] == s[i] as int
  {
    if s != [] {
      EncodeAscii(s[1..]);
    }
  }
}
