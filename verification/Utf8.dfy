/** What valid UTF-8 is: the encodings of Unicode characters (sections 3 and 4 of RFC 3629). */
module Utf8 {
  import opened Prelude
  import opened EventNote

  /** A Unicode scalar value: no surrogate, and nothing above U+10FFFF. */
  predicate Scalar(c: int) { 0 <= c < 0xD800 || 0xE000 <= c <= 0x10FFFF }

  function EncodeChar(c: int): Bytes
    requires Scalar(c)
  {
    if c < 0x80 then [c as Byte]
    else if c < 0x800 then [(0xC0 + c / 0x40) as Byte, Continued(c)]
    else if c < 0x1_0000 then [(0xE0 + c / 0x1000) as Byte, Continued(c / 0x40), Continued(c)]
    else [(0xF0 + c / 0x4_0000) as Byte, Continued(c / 0x1000), Continued(c / 0x40), Continued(c)]
  }

  /** Six bits of a character. */
  function Continued(c: nat): Byte { (0x80 + c % 0x40) as Byte }

  function EncodeText(text: seq<int>): Bytes
    requires forall i :: 0 <= i < |text| ==> Scalar(text[i])
  {
    if text == [] then [] else EncodeChar(text[0]) + EncodeText(text[1..])
  }

  /** An encoded character is read as one, whatever follows. */
  lemma EncodedIsChar(c: int, rest: Bytes)
    requires Scalar(c)
    ensures CharSize(EncodeChar(c) + rest) == |EncodeChar(c)|
  {
    var e := EncodeChar(c);
    EncodedHasSize(c);
    hide CharSize, EncodeChar;
    assert (e + rest)[..|e|] == e[..|e|] == e;
    CharSizeFrame(e, e + rest);
  }

  lemma EncodedHasSize(c: int)
    requires Scalar(c)
    ensures CharSize(EncodeChar(c)) == |EncodeChar(c)| > 0
  {
  }

  /** The character at the head of the text. */
  function Decoded(s: Bytes): int
    requires CharSize(s) > 0
  {
    var n := CharSize(s);
    if n == 1 then s[0] as int
    else if n == 2 then (s[0] as int - 0xC0) * 0x40 + (s[1] as int - 0x80)
    else if n == 3 then (s[0] as int - 0xE0) * 0x1000 + (s[1] as int - 0x80) * 0x40 + (s[2] as int - 0x80)
    else
      (s[0] as int - 0xF0) * 0x4_0000 + (s[1] as int - 0x80) * 0x1000
      + (s[2] as int - 0x80) * 0x40 + (s[3] as int - 0x80)
  }

  lemma Digits(a: nat, b: nat, c: nat, d: nat)
    requires b < 0x40 && c < 0x40 && d < 0x40
    ensures var x := a * 0x4_0000 + b * 0x1000 + c * 0x40 + d;
      x / 0x4_0000 == a && x / 0x1000 == a * 0x40 + b && x / 0x40 == a * 0x1000 + b * 0x40 + c && x % 0x40 == d
    ensures (a * 0x40 + b) % 0x40 == b && (a * 0x1000 + b * 0x40 + c) % 0x40 == c
  {
  }

  lemma CharIsEncoded(s: Bytes)
    requires CharSize(s) > 0
    ensures Scalar(Decoded(s)) && EncodeChar(Decoded(s)) == s[..CharSize(s)]
  {
    var n := CharSize(s);
    if n == 2 {
      TwoBytes(s);
    } else if n == 3 {
      ThreeBytes(s);
    } else if n == 4 {
      FourBytes(s);
    }
  }

  lemma TwoBytes(s: Bytes)
    requires CharSize(s) == 2
    ensures Scalar(Decoded(s)) && EncodeChar(Decoded(s)) == s[..2]
  {
    Digits(0, 0, s[0] as int - 0xC0, s[1] as int - 0x80);
  }

  lemma ThreeBytes(s: Bytes)
    requires CharSize(s) == 3
    ensures Scalar(Decoded(s)) && EncodeChar(Decoded(s)) == s[..3]
  {
    Digits(0, s[0] as int - 0xE0, s[1] as int - 0x80, s[2] as int - 0x80);
  }

  lemma FourBytes(s: Bytes)
    requires CharSize(s) == 4
    ensures Scalar(Decoded(s)) && EncodeChar(Decoded(s)) == s[..4]
  {
    Digits(s[0] as int - 0xF0, s[1] as int - 0x80, s[2] as int - 0x80, s[3] as int - 0x80);
  }

  /** A text is valid UTF-8 if and only if it is the encoding of some Unicode characters. */
  lemma {:induction false} ValidIff(s: Bytes)
    ensures Valid(s) <==>
      exists text: seq<int> :: (forall i :: 0 <= i < |text| ==> Scalar(text[i])) && EncodeText(text) == s
  {
    if Valid(s) {
      var text := Decode(s);
    }
    forall text: seq<int> | (forall i :: 0 <= i < |text| ==> Scalar(text[i])) && EncodeText(text) == s
      ensures Valid(s)
    {
      EncodedIsValid(text);
    }
  }

  lemma {:induction false} EncodedIsValid(text: seq<int>)
    requires forall i :: 0 <= i < |text| ==> Scalar(text[i])
    ensures Valid(EncodeText(text))
  {
    if text != [] {
      EncodedIsValid(text[1..]);
      var rest := EncodeText(text[1..]);
      EncodedIsChar(text[0], rest);
      hide CharSize, EncodeChar;
      assert (EncodeChar(text[0]) + rest)[|EncodeChar(text[0])|..] == rest;
    }
  }

  lemma {:induction false} Decode(s: Bytes) returns (text: seq<int>)
    requires Valid(s)
    ensures (forall i :: 0 <= i < |text| ==> Scalar(text[i])) && EncodeText(text) == s
  {
    hide CharSize, EncodeChar, Decoded, Valid;
    text := [];
    if s != [] {
      ValidParts(s);
      var n := CharSize(s);
      var rest := Decode(s[n..]);
      CharIsEncoded(s);
      text := [Decoded(s)] + rest;
      assert text[1..] == rest && s[..n] + s[n..] == s;
    }
  }

  /** What invalid bytes are replaced by. */
  lemma ReplacementIsEncoded()
    ensures EncodeChar(0xFFFD) == REPLACEMENT
  {
  }
}
