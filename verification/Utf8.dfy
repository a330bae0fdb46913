/** UTF-8 validity by the byte-sequence grammar of RFC 3629 section 4, and the truncation both page limits use. */
module Utf8 {
  import opened Basics

  predicate Tail(b: byte) {
    0x80 <= b <= 0xBF
  }

  /** Length of the character that starts `s`, or 0 when no rule of the grammar matches. */
  function CharLength(s: Bytes): (n: nat)
    ensures n <= 4 && n <= |s|
  {
    if s == [] then 0
    else if s[0] <= 0x7F then 1
    else if 0xC2 <= s[0] <= 0xDF then
      if |s| >= 2 && Tail(s[1]) then 2 else 0
    else if 0xE0 <= s[0] <= 0xEF then
      if |s| >= 3 && SecondOfThree(s[0], s[1]) && Tail(s[2]) then 3 else 0
    else if 0xF0 <= s[0] <= 0xF4 then
      if |s| >= 4 && SecondOfFour(s[0], s[1]) && Tail(s[2]) && Tail(s[3]) then 4 else 0
    else 0
  }

  predicate SecondOfThree(first: byte, b: byte) {
    if first == 0xE0 then 0xA0 <= b <= 0xBF
    else if first == 0xED then 0x80 <= b <= 0x9F
    else Tail(b)
  }

  predicate SecondOfFour(first: byte, b: byte) {
    if first == 0xF0 then 0x90 <= b <= 0xBF
    else if first == 0xF4 then 0x80 <= b <= 0x8F
    else Tail(b)
  }

  /** Go's `utf8.ValidString`. */
  predicate Valid(s: Bytes) {
    s == [] || (CharLength(s) > 0 && Valid(s[CharLength(s)..]))
  }

  /** A complete character is recognised whatever follows it. */
  lemma CharLengthOfConcat(a: Bytes, b: Bytes)
    requires CharLength(a) > 0
    ensures CharLength(a + b) == CharLength(a)
  {
    assert forall i :: 0 <= i < |a| ==> (a + b)[i] == a[i];
  }

  /** Self-delimitation: once a prefix is valid, the whole is valid exactly when the remainder is. */
  lemma {:induction false} ValidConcat(a: Bytes, b: Bytes)
    requires Valid(a)
    ensures Valid(a + b) <==> Valid(b)
    decreases |a|
  {
    hide CharLength;
    if a == [] {
      assert a + b == b;
    } else {
      var n := CharLength(a);
      CharLengthOfConcat(a, b);
      ValidConcat(a[n..], b);
      assert (a + b)[n..] == a[n..] + b;
    }
  }

  /** Every window of four positions of a valid text holds a character boundary. */
  lemma {:induction false} BoundaryNear(s: Bytes, m: nat) returns (k: nat)
    requires Valid(s) && m <= |s|
    ensures k <= m < k + 4 && Valid(s[..k])
    decreases |s|
  {
    var n := CharLength(s);
    if s == [] || m < n {
      k := 0;
    } else {
      var j := BoundaryNear(s[n..], m - n);
      k := n + j;
      assert s[..n] + s[n..][..j] == s[..k];
      CharIsValid(s);
      ValidConcat(s[..n], s[n..][..j]);
    }
  }

  lemma CharIsValid(s: Bytes)
    requires CharLength(s) > 0
    ensures Valid(s[..CharLength(s)])
  {
    var c := s[..CharLength(s)];
    assert CharLength(c) == |c| && c[|c|..] == [];
  }

  /** The longest valid prefix of at most `max` bytes. */
  function Truncate(value: Bytes, max: nat): (r: Bytes)
    ensures r <= value && |r| <= max && Valid(r)
    ensures forall k :: |r| < k <= max && k <= |value| ==> !Valid(value[..k])
    decreases max
  {
    if max <= |value| && Valid(value[..max]) then value[..max]
    else if max == 0 then []
    else Truncate(value, max - 1)
  }

  /** What truncation costs: at most three bytes, and never the validity of what is left to read. */
  lemma TruncateCuts(value: Bytes, max: nat)
    requires Valid(value)
    ensures |value| <= max ==> Truncate(value, max) == value
    ensures max < |value| ==> max - 3 <= |Truncate(value, max)|
    ensures Valid(value[|Truncate(value, max)|..])
    ensures 4 <= max && value != [] ==> Truncate(value, max) != []
  {
    var r := Truncate(value, max);
    assert value[..|value|] == value;
    if max < |value| {
      var k := BoundaryNear(value, max);
      assert |r| >= k;
    }
    assert value == r + value[|r|..];
    ValidConcat(r, value[|r|..]);
  }

  /** `truncateUTF8` of the event store: drops bytes from the end until what is left is valid. */
  method TruncateUtf8(text: Bytes, max: nat) returns (value: Bytes)
    ensures value == if |text| <= max then text else Truncate(text, max)
  {
    if |text| <= max {
      return text;
    }
    value := text[..max];
    while !Valid(value)
      invariant |value| <= max && value == text[..|value|]
      invariant Truncate(text, max) == Truncate(text, |value|)
      decreases |value|
    {
      value := value[..|value| - 1];
    }
  }
}
