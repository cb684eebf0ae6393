/** The UTF-8 test of the section reader accepts exactly the encodings of Unicode text (RFC 3629, section 3). */
module Utf8Text {
  import opened Basics
  import opened Elf

  /** Unicode scalar values: all code points but the surrogates. */
  predicate Scalar(c: nat) {
    c < 0xD800 || 0xE000 <= c <= 0x10FFFF
  }

  function Encode(c: nat): bytes
    requires Scalar(c)
  {
    if c < 0x80 then [c]
    else if c < 0x800 then [0xC0 + c / 0x40, 0x80 + c % 0x40]
    else if c < 0x1_0000 then [0xE0 + c / 0x1000, 0x80 + c / 0x40 % 0x40, 0x80 + c % 0x40]
    else [0xF0 + c / 0x4_0000, 0x80 + c / 0x1000 % 0x40, 0x80 + c / 0x40 % 0x40, 0x80 + c % 0x40]
  }

  predicate IsText(cs: seq<nat>) {
    forall i :: 0 <= i < |cs| ==> Scalar(cs[i])
  }

  function EncodeAll(cs: seq<nat>): bytes
    requires IsText(cs)
  {
    if cs == [] then [] else assert Scalar(cs[0]); Encode(cs[0]) + EncodeAll(cs[1..])
  }


  lemma OneByte(c: nat, s: bytes)
    requires c < 0x80 && s != [] && s[0] == c
    ensures Utf8(s) <==> Utf8(s[1..])
  {}

  lemma TwoBytes(c: nat, s: bytes)
    requires 0x80 <= c < 0x800 && |s| >= 2 && s[0] == 0xC0 + c / 0x40 && s[1] == 0x80 + c % 0x40
    ensures Utf8(s) <==> Utf8(s[2..])
  {}

  lemma ThreeBytes(c: nat, s: bytes)
    requires 0x800 <= c < 0x1_0000 && Scalar(c) && |s| >= 3
    requires s[0] == 0xE0 + c / 0x1000 && s[1] == 0x80 + c / 0x40 % 0x40 && s[2] == 0x80 + c % 0x40
    ensures Utf8(s) <==> Utf8(s[3..])
  {}

  lemma FourBytes(c: nat, s: bytes)
    requires 0x1_0000 <= c && Scalar(c) && |s| >= 4
    requires s[0] == 0xF0 + c / 0x4_0000 && s[1] == 0x80 + c / 0x1000 % 0x40
    requires s[2] == 0x80 + c / 0x40 % 0x40 && s[3] == 0x80 + c % 0x40
    ensures Utf8(s) <==> Utf8(s[4..])
  {}

  lemma EncodedStarts(c: nat, rest: bytes)
    requires Scalar(c)
    ensures Utf8(Encode(c) + rest) <==> Utf8(rest)
  {
    var s := Encode(c) + rest;
    assert s[|Encode(c)|..] == rest;
    if c < 0x80 {
      OneByte(c, s);
    } else if c < 0x800 {
      TwoBytes(c, s);
    } else if c < 0x1_0000 {
      ThreeBytes(c, s);
    } else {
      FourBytes(c, s);
    }
  }

  lemma {:induction false} EncodedIsUtf8(cs: seq<nat>)
    requires IsText(cs)
    ensures Utf8(EncodeAll(cs))
  {
    if cs != [] {
      EncodedIsUtf8(cs[1..]);
      EncodedStarts(cs[0], EncodeAll(cs[1..]));
    }
  }

  /** Six bits more, as a continuation byte adds them. */
  lemma SixBits(a: nat, b: nat)
    requires b < 0x40
    ensures (a * 0x40 + b) / 0x40 == a && (a * 0x40 + b) % 0x40 == b
  {}

  lemma ThreeBack(a: nat, b: nat, d: nat)
    requires a < 0x10 && b < 0x40 && d < 0x40
    requires var c := (a * 0x40 + b) * 0x40 + d; c >= 0x800 && Scalar(c)
    ensures Encode((a * 0x40 + b) * 0x40 + d) == [0xE0 + a, 0x80 + b, 0x80 + d]
  {
    SixBits(a, b);
    SixBits(a * 0x40 + b, d);
  }

  lemma FourBack(a: nat, b: nat, d: nat, e: nat)
    requires a < 5 && b < 0x40 && d < 0x40 && e < 0x40
    requires var c := ((a * 0x40 + b) * 0x40 + d) * 0x40 + e; c >= 0x1_0000 && Scalar(c)
    ensures Encode(((a * 0x40 + b) * 0x40 + d) * 0x40 + e) == [0xF0 + a, 0x80 + b, 0x80 + d, 0x80 + e]
  {
    SixBits(a, b);
    SixBits(a * 0x40 + b, d);
    SixBits((a * 0x40 + b) * 0x40 + d, e);
  }

  /** The character at the front of well-formed bytes. */
  lemma FirstChar(s: bytes) returns (c: nat, rest: bytes)
    requires s != [] && Utf8(s)
    ensures Scalar(c) && s == Encode(c) + rest && Utf8(rest)
  {
    if s[0] < 0x80 {
      c, rest := s[0], s[1..];
    } else if s[0] <= 0xDF {
      var p: int, q: int := s[0], s[1];
      c, rest := (p - 0xC0) * 0x40 + (q - 0x80), s[2..];
      SixBits(p - 0xC0, q - 0x80);
      assert Encode(c) == [s[0], s[1]];
    } else if s[0] <= 0xEF {
      var p: int, q: int, r: int := s[0], s[1], s[2];
      c, rest := ((p - 0xE0) * 0x40 + (q - 0x80)) * 0x40 + (r - 0x80), s[3..];
      ThreeBack(p - 0xE0, q - 0x80, r - 0x80);
      assert Encode(c) == [s[0], s[1], s[2]];
    } else {
      c, rest := FirstOfFour(s);
    }
  }

  lemma FirstOfFour(s: bytes) returns (c: nat, rest: bytes)
    requires s != [] && Utf8(s) && s[0] >= 0xF0
    ensures Scalar(c) && s == Encode(c) + rest && Utf8(rest)
  {
    var p: int, q: int, r: int, t: int := s[0], s[1], s[2], s[3];
    c, rest := (((p - 0xF0) * 0x40 + (q - 0x80)) * 0x40 + (r - 0x80)) * 0x40 + (t - 0x80), s[4..];
    FourBack(p - 0xF0, q - 0x80, r - 0x80, t - 0x80);
    assert Encode(c) == [s[0], s[1], s[2], s[3]];
  }

  lemma {:induction false} Decoded(s: bytes) returns (cs: seq<nat>)
    requires Utf8(s)
    ensures IsText(cs) && EncodeAll(cs) == s
    decreases |s|
  {
    if s == [] {
      cs := [];
    } else {
      var c, rest := FirstChar(s);
      var more := Decoded(rest);
      cs := [c] + more;
      assert cs[1..] == more;
    }
  }

  lemma {:induction false} Utf8IsText(s: bytes)
    ensures Utf8(s) <==> exists cs :: IsText(cs) && EncodeAll(cs) == s
  {
    if Utf8(s) {
      var cs := Decoded(s);
      assert IsText(cs) && EncodeAll(cs) == s;
    }
    if cs :| IsText(cs) && EncodeAll(cs) == s {
      EncodedIsUtf8(cs);
    }
  }
}
