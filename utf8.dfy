/**
 * UTF-8 as the codec uses it: `Buffer.from(str, "utf-8")` in the writer and
 * `buffer.toString("utf-8", start, end)` in the reader. Both are Node library
 * calls, so the model gives them a definition of its own: the encoder of the
 * Unicode Standard (section 3.9, table 3-6) over Dafny's `char`, which holds
 * exactly the Unicode scalar values, and a decoder that accepts the
 * well-formed sequences of table 3-7 and replaces every maximal ill-formed
 * subpart with one U+FFFD, never failing.
 */
module Utf8 {
  import opened Wire

  const REPLACEMENT: char := 0xFFFD as char

  // ---------------------------------------------------------------------------
  // Encoding

  function EncodeChar(c: char): (b: seq<Byte>)
    ensures 1 <= |b| <= 4
  {
    var n := c as int;
    if n < 0x80 then [n]
    else if n < 0x800 then [0xC0 + n / 64, 0x80 + n % 64]
    else if n < 0x1_0000 then [0xE0 + (n / 64) / 64, 0x80 + (n / 64) % 64, 0x80 + n % 64]
    else [0xF0 + ((n / 64) / 64) / 64, 0x80 + ((n / 64) / 64) % 64, 0x80 + (n / 64) % 64, 0x80 + n % 64]
  }

  function Encode(s: string): (b: seq<Byte>)
    ensures |s| <= |b| <= 4 * |s|
  {
    if s == [] then [] else EncodeChar(s[0]) + Encode(s[1..])
  }

  /** Text made only of ASCII characters encodes to their code points, one byte each. */
  lemma {:induction false} EncodeAscii(s: string)
    requires forall i :: 0 <= i < |s| ==> s[i] as int < 0x80
    ensures Encode(s) == seq(|s|, i requires 0 <= i < |s| => s[i] as int)
  {
    if s != [] {
      EncodeAscii(s[1..]);
    }
  }

  /** A single ASCII character encodes to its code point. */
  lemma EncodeAsciiChar(c: char)
    requires c as int < 0x80
    ensures Encode([c]) == [c as int]
  {
    assert [c][1..] == [];
  }

  // ---------------------------------------------------------------------------
  // Decoding

  /** Length of the well-formed sequence that `lead` starts, or 0 when no sequence starts with it. */
  function SequenceLength(lead: Byte): nat
  {
    if lead < 0x80 then 1
    else if lead < 0xC2 then 0
    else if lead < 0xE0 then 2
    else if lead < 0xF0 then 3
    else if lead < 0xF5 then 4
    else 0
  }

  predicate IsContinuation(b: Byte)
  {
    0x80 <= b < 0xC0
  }

  /** The second byte's range, which excludes overlong forms, surrogates and values above U+10FFFF. */
  predicate SecondByteOk(lead: Byte, b: Byte)
  {
    if lead == 0xE0 then 0xA0 <= b < 0xC0
    else if lead == 0xED then 0x80 <= b < 0xA0
    else if lead == 0xF0 then 0x90 <= b < 0xC0
    else if lead == 0xF4 then 0x80 <= b < 0x90
    else IsContinuation(b)
  }

  /** One decoded character and the number of bytes it consumed. */
  datatype Step = Step(c: char, width: nat)

  function DecodeStep(b: seq<Byte>): (s: Step)
    requires |b| > 0
    ensures 1 <= s.width <= |b|
  {
    var n := SequenceLength(b[0]);
    var b0: int := b[0];
    if n == 1 then Step(b0 as char, 1)
    else if n == 0 || |b| < 2 || !SecondByteOk(b[0], b[1]) then Step(REPLACEMENT, 1)
    else
      var b1: int := b[1];
      if n == 2 then Step(((b0 - 0xC0) * 64 + (b1 - 0x80)) as char, 2)
      else if |b| < 3 || !IsContinuation(b[2]) then Step(REPLACEMENT, 2)
      else
        var b2: int := b[2];
        if n == 3 then Step(((b0 - 0xE0) * 4096 + (b1 - 0x80) * 64 + (b2 - 0x80)) as char, 3)
        else if |b| < 4 || !IsContinuation(b[3]) then Step(REPLACEMENT, 3)
        else
          var b3: int := b[3];
          Step(((b0 - 0xF0) * 262144 + (b1 - 0x80) * 4096 + (b2 - 0x80) * 64 + (b3 - 0x80)) as char, 4)
  }

  function Decode(b: seq<Byte>): (s: string)
    ensures |s| <= |b|
    decreases |b|
  {
    if b == [] then "" else
      var st := DecodeStep(b);
      [st.c] + Decode(b[st.width..])
  }

  /** Each byte read as the character with that code point. */
  function AsciiText(p: seq<Byte>): (s: string)
    ensures |s| == |p|
  {
    if p == [] then [] else [p[0] as char] + AsciiText(p[1..])
  }

  /** ASCII bytes, read as text and encoded again, come back unchanged. */
  lemma {:induction false} EncodeAsciiText(p: seq<Byte>)
    requires forall i :: 0 <= i < |p| ==> p[i] < 0x80
    ensures Encode(AsciiText(p)) == p
  {
    if p != [] {
      EncodeAsciiText(p[1..]);
      assert AsciiText(p)[1..] == AsciiText(p[1..]);
      assert p == [p[0]] + p[1..];
    }
  }

  /** ASCII bytes decode one character each, whatever follows them. */
  lemma {:induction false} DecodeAscii(p: seq<Byte>, rest: seq<Byte>)
    requires forall i :: 0 <= i < |p| ==> p[i] < 0x80
    ensures Decode(p + rest) == AsciiText(p) + Decode(rest)
  {
    if p == [] {
      assert p + rest == rest;
    } else {
      var b := p + rest;
      assert b[1..] == p[1..] + rest;
      assert DecodeStep(b) == Step(p[0] as char, 1);
      DecodeAscii(p[1..], rest);
      assert Decode(b) == [p[0] as char] + (AsciiText(p[1..]) + Decode(rest));
    }
  }

  // ---------------------------------------------------------------------------
  // Round trip

  /** The two bytes the encoder writes for U+0080..U+07FF decode back to the character. */
  lemma DecodeStepTwoBytes(c: char, b: seq<Byte>)
    requires 0x80 <= c as int < 0x800
    requires |b| >= 2 && b[0] == 0xC0 + (c as int) / 64 && b[1] == 0x80 + (c as int) % 64
    ensures DecodeStep(b) == Step(c, 2)
  {
  }

  /** The three bytes the encoder writes for U+0800..U+FFFF decode back to the character. */
  lemma DecodeStepThreeBytes(c: char, b: seq<Byte>)
    requires 0x800 <= c as int < 0x1_0000
    requires |b| >= 3
    requires b[0] == 0xE0 + ((c as int) / 64) / 64 && b[1] == 0x80 + ((c as int) / 64) % 64 && b[2] == 0x80 + (c as int) % 64
    ensures DecodeStep(b) == Step(c, 3)
  {
    var n := c as int;
    var q1, q2 := n / 64, (n / 64) / 64;
    assert n == q1 * 64 + n % 64 && q1 == q2 * 64 + q1 % 64;
  }

  /** The four bytes the encoder writes for U+10000..U+10FFFF decode back to the character. */
  lemma DecodeStepFourBytes(c: char, b: seq<Byte>)
    requires 0x1_0000 <= c as int
    requires |b| >= 4
    requires b[0] == 0xF0 + (((c as int) / 64) / 64) / 64 && b[1] == 0x80 + (((c as int) / 64) / 64) % 64
    requires b[2] == 0x80 + ((c as int) / 64) % 64 && b[3] == 0x80 + (c as int) % 64
    ensures DecodeStep(b) == Step(c, 4)
  {
    var n := c as int;
    var q1, q2, q3 := n / 64, (n / 64) / 64, ((n / 64) / 64) / 64;
    assert n == q1 * 64 + n % 64 && q1 == q2 * 64 + q1 % 64 && q2 == q3 * 64 + q2 % 64;
  }

  /** The decoder reads the encoding of one character back as that character, whatever follows it. */
  lemma DecodeStepEncodeChar(c: char, rest: seq<Byte>)
    ensures DecodeStep(EncodeChar(c) + rest) == Step(c, |EncodeChar(c)|)
  {
    var n := c as int;
    var b := EncodeChar(c) + rest;
    if n < 0x80 {
    } else if n < 0x800 {
      DecodeStepTwoBytes(c, b);
    } else if n < 0x1_0000 {
      DecodeStepThreeBytes(c, b);
    } else {
      DecodeStepFourBytes(c, b);
    }
  }

  /** Decoding what the encoder produced gives back the original text. */
  lemma {:induction false} DecodeEncode(s: string)
    ensures Decode(Encode(s)) == s
  {
    if s != [] {
      var e := EncodeChar(s[0]);
      var rest := Encode(s[1..]);
      DecodeStepEncodeChar(s[0], rest);
      assert (e + rest)[|e|..] == rest;
      DecodeEncode(s[1..]);
    }
  }
}
