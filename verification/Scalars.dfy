/** UTF-8 validity against the encoding of RFC 3629 section 3: valid texts are those that encode scalar values. */
module Scalars {
  import opened Basics
  import Utf8

  /** A Unicode scalar value: a code point that is no surrogate. */
  predicate IsScalar(c: int) {
    0 <= c < 0xD800 || 0xE000 <= c < 0x11_0000
  }

  /** The shortest encoding of a scalar value. */
  function EncodeScalar(c: int): Bytes
    requires IsScalar(c)
  {
    if c < 0x80 then [c as byte]
    else if c < 0x800 then [(0xC0 + c / 64) as byte, (0x80 + c % 64) as byte]
    else if c < 0x1_0000 then [(0xE0 + c / 4096) as byte, (0x80 + c / 64 % 64) as byte, (0x80 + c % 64) as byte]
    else
      [(0xF0 + c / 262_144) as byte, (0x80 + c / 4096 % 64) as byte, (0x80 + c / 64 % 64) as byte,
       (0x80 + c % 64) as byte]
  }

  predicate AreScalars(cs: seq<int>) {
    forall i :: 0 <= i < |cs| ==> IsScalar(cs[i])
  }

  function EncodeText(cs: seq<int>): Bytes
    requires AreScalars(cs)
  {
    if cs == [] then [] else EncodeScalar(cs[0]) + EncodeText(cs[1..])
  }

  /** An encoded character is recognised as such, whatever follows it. */
  lemma ScalarIsCharacter(c: int, rest: Bytes)
    requires IsScalar(c)
    ensures Utf8.CharLength(EncodeScalar(c) + rest) == |EncodeScalar(c)| > 0
  {
    if c < 0x800 {
      ShortScalar(c, rest);
    } else if c < 0x1_0000 {
      ThreeByteScalar(c, rest);
    } else {
      FourByteScalar(c, rest);
    }
  }

  lemma ShortScalar(c: int, rest: Bytes)
    requires 0 <= c < 0x800
    ensures Utf8.CharLength(EncodeScalar(c) + rest) == |EncodeScalar(c)| > 0
  {
  }

  lemma ThreeByteScalar(c: int, rest: Bytes)
    requires IsScalar(c) && 0x800 <= c < 0x1_0000
    ensures Utf8.CharLength(EncodeScalar(c) + rest) == |EncodeScalar(c)| > 0
  {
    var s := EncodeScalar(c) + rest;
    assert s[0] as int == 0xE0 + c / 4096 && s[1] as int == 0x80 + c / 64 % 64 && s[2] as int == 0x80 + c % 64;
    assert Utf8.SecondOfThree(s[0], s[1]);
  }

  lemma FourByteScalar(c: int, rest: Bytes)
    requires 0x1_0000 <= c < 0x11_0000
    ensures Utf8.CharLength(EncodeScalar(c) + rest) == |EncodeScalar(c)| > 0
  {
    var s := EncodeScalar(c) + rest;
    assert s[0] as int == 0xF0 + c / 262_144 && s[1] as int == 0x80 + c / 4096 % 64;
    assert s[2] as int == 0x80 + c / 64 % 64 && s[3] as int == 0x80 + c % 64;
    assert Utf8.SecondOfFour(s[0], s[1]);
  }

  lemma TwoDigits(a: int, b: int)
    requires 0 <= a && 0 <= b < 64
    ensures var c := a * 64 + b;
      c / 64 == a && c % 64 == b
  {
  }

  lemma ThreeDigits(a: int, b: int, d: int)
    requires 0 <= a && 0 <= b < 64 && 0 <= d < 64
    ensures var c := a * 4096 + b * 64 + d;
      c / 4096 == a && c / 64 % 64 == b && c % 64 == d
  {
    TwoDigits(a, b);
    TwoDigits(a * 64 + b, d);
  }

  lemma FourDigits(a: int, b: int, d: int, e: int)
    requires 0 <= a && 0 <= b < 64 && 0 <= d < 64 && 0 <= e < 64
    ensures var c := a * 262_144 + b * 4096 + d * 64 + e;
      c / 262_144 == a && c / 4096 % 64 == b && c / 64 % 64 == d && c % 64 == e
  {
    ThreeDigits(a * 64 + b, d, e);
    TwoDigits(a, b);
  }

  /** What is recognised as a character encodes a scalar value. */
  lemma CharacterIsScalar(s: Bytes) returns (c: int)
    requires Utf8.CharLength(s) > 0
    ensures IsScalar(c) && EncodeScalar(c) == s[..Utf8.CharLength(s)]
  {
    var n := Utf8.CharLength(s);
    if n == 1 {
      c := s[0] as int;
    } else if n == 2 {
      c := TwoBytes(s);
    } else if n == 3 {
      c := ThreeBytes(s);
    } else {
      c := FourBytes(s);
    }
  }

  lemma TwoBytes(s: Bytes) returns (c: int)
    requires Utf8.CharLength(s) == 2
    ensures IsScalar(c) && EncodeScalar(c) == s[..2]
  {
    var a, b := s[0] as int - 0xC0, s[1] as int - 0x80;
    TwoDigits(a, b);
    c := a * 64 + b;
  }

  lemma ThreeBytes(s: Bytes) returns (c: int)
    requires Utf8.CharLength(s) == 3
    ensures IsScalar(c) && EncodeScalar(c) == s[..3]
  {
    var a, b, d := s[0] as int - 0xE0, s[1] as int - 0x80, s[2] as int - 0x80;
    ThreeDigits(a, b, d);
    c := a * 4096 + b * 64 + d;
    ThirdRange(s, a, b, d);
  }

  lemma FourBytes(s: Bytes) returns (c: int)
    requires Utf8.CharLength(s) == 4
    ensures IsScalar(c) && EncodeScalar(c) == s[..4]
  {
    var a, b, d, e := s[0] as int - 0xF0, s[1] as int - 0x80, s[2] as int - 0x80, s[3] as int - 0x80;
    FourDigits(a, b, d, e);
    c := a * 262_144 + b * 4096 + d * 64 + e;
    FourthRange(s, a, b, d, e);
  }

  lemma ThirdRange(s: Bytes, a: int, b: int, d: int)
    requires Utf8.CharLength(s) == 3 && a == s[0] as int - 0xE0 && b == s[1] as int - 0x80 && d == s[2] as int - 0x80
    ensures var c := a * 4096 + b * 64 + d;
      0 <= a && 0 <= b < 64 && 0 <= d < 64 && 0x800 <= c < 0x1_0000 && IsScalar(c)
  {
  }

  lemma FourthRange(s: Bytes, a: int, b: int, d: int, e: int)
    requires Utf8.CharLength(s) == 4
    requires a == s[0] as int - 0xF0 && b == s[1] as int - 0x80 && d == s[2] as int - 0x80 && e == s[3] as int - 0x80
    ensures var c := a * 262_144 + b * 4096 + d * 64 + e;
      0 <= a && 0 <= b < 64 && 0 <= d < 64 && 0 <= e < 64 && 0x1_0000 <= c < 0x11_0000
  {
  }

  lemma {:induction false} EncodedIsValid(cs: seq<int>)
    requires AreScalars(cs)
    ensures Utf8.Valid(EncodeText(cs))
  {
    hide EncodeScalar, Utf8.CharLength;
    if cs != [] {
      var tail := EncodeText(cs[1..]);
      ScalarIsCharacter(cs[0], tail);
      EncodedIsValid(cs[1..]);
      DropLeft(EncodeScalar(cs[0]), tail);
    }
  }

  lemma {:induction false} ValidIsEncoded(s: Bytes) returns (cs: seq<int>)
    requires Utf8.Valid(s)
    ensures AreScalars(cs) && EncodeText(cs) == s
    decreases |s|
  {
    hide EncodeScalar, Utf8.CharLength;
    cs := [];
    if s != [] {
      var n := Utf8.CharLength(s);
      var c := CharacterIsScalar(s);
      var rest := ValidIsEncoded(s[n..]);
      cs := [c] + rest;
      assert s == s[..n] + s[n..];
    }
  }

  /** A text is valid exactly when it is the encoding of a sequence of scalar values. */
  lemma ValidIsEncoding(s: Bytes)
    ensures Utf8.Valid(s) <==> exists cs :: AreScalars(cs) && EncodeText(cs) == s
  {
    hide Utf8.Valid, AreScalars, EncodeText;
    if Utf8.Valid(s) { var cs := ValidIsEncoded(s); }
    if cs :| AreScalars(cs) && EncodeText(cs) == s { EncodedIsValid(cs); }
  }
}
