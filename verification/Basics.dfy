/** Bytes, line boundaries and the byte-wise string order shared by every other module. */
module Basics {

  newtype byte = b: int | 0 <= b < 256
  type Bytes = seq<byte>

  datatype Option<+T> = None | Some(value: T)
  datatype Result<+T, +E> = Ok(value: T) | Err(error: E)

  const NEWLINE: byte := 10
  const SPACE: byte := 32

  /** The bytes of ASCII text. */
  function Ascii(s: string): (r: Bytes)
    ensures |r| == |s|
  {
    seq(|s|, i requires 0 <= i < |s| => (s[i] as int % 256) as byte)
  }

  lemma ConcatAssociative<T>(a: seq<T>, b: seq<T>, c: seq<T>)
    ensures a + (b + c) == a + b + c
  {
  }

  lemma SplitAt<T>(s: seq<T>, n: nat)
    requires n < |s|
    ensures s == s[..n] + ([s[n]] + s[n + 1..])
  {
  }

  lemma ConcatMiddle<T>(a: seq<T>, x: T, y: T, b: seq<T>)
    ensures (a + [x]) + ([y] + b) == a + ([x, y] + b)
  {
  }

  lemma DropLeft<T>(a: seq<T>, b: seq<T>)
    ensures (a + b)[|a|..] == b && (a + b)[..|a|] == a
  {
  }

  lemma ConcatUnit<T>(a: seq<T>)
    ensures a + [] == a == [] + a
  {
  }

  /** Position of the first occurrence of `c`, or -1; `IndexByteFinds` says so. */
  function IndexByte(s: Bytes, c: byte): (i: int)
    ensures -1 <= i < |s|
  {
    if s == [] then -1
    else if s[0] == c then 0
    else
      var i := IndexByte(s[1..], c);
      if i < 0 then -1 else i + 1
  }

  lemma {:induction false} IndexByteFinds(s: Bytes, c: byte)
    ensures 0 <= IndexByte(s, c) ==> s[IndexByte(s, c)] == c
    ensures forall k :: 0 <= k < |s| && s[k] == c ==> 0 <= IndexByte(s, c) <= k
  {
    if s != [] && s[0] != c {
      IndexByteFinds(s[1..], c);
      forall k | 0 <= k < |s| && s[k] == c
        ensures 0 <= IndexByte(s, c) <= k
      {
        assert s[1..][k - 1] == c;
      }
    }
  }

  /** The first line of `s` with its newline, or all of `s` when it has none. */
  function FirstLine(s: Bytes): (line: Bytes)
    ensures |line| <= |s| && line == s[..|line|]
    ensures s != [] ==> line != []
  {
    var i := IndexByte(s, NEWLINE);
    if i < 0 then s else s[..i + 1]
  }

  /** `s` is a whole, non-empty number of newline-terminated lines. */
  predicate Terminated(s: Bytes) {
    s != [] && s[|s| - 1] == NEWLINE
  }

  predicate LineAligned(s: Bytes) {
    s == [] || Terminated(s)
  }

  /** `s` holds a complete line. */
  predicate HasLine(s: Bytes) {
    IndexByte(s, NEWLINE) >= 0
  }

  /** Appending never changes which line comes first, once that line is complete. */
  lemma {:induction false} IndexByteOfConcat(a: Bytes, b: Bytes, c: byte)
    requires IndexByte(a, c) >= 0
    ensures IndexByte(a + b, c) == IndexByte(a, c)
  {
    if a[0] != c {
      IndexByteOfConcat(a[1..], b, c);
      assert (a + b)[1..] == a[1..] + b;
    }
  }

  lemma FirstLineOfConcat(a: Bytes, b: Bytes)
    requires HasLine(a)
    ensures FirstLine(a + b) == FirstLine(a) && Terminated(FirstLine(a)) && HasLine(a + b)
  {
    var i := IndexByte(a, NEWLINE);
    IndexByteOfConcat(a, b, NEWLINE);
    IndexByteFinds(a, NEWLINE);
    assert (a + b)[..i + 1] == a[..i + 1];
  }

  /** The longest prefix of `s` made of complete lines; `CompletePrefixIs` says so. */
  function CompletePrefix(s: Bytes): (p: Bytes)
    ensures |p| <= |s| && p == s[..|p|] && LineAligned(p)
  {
    if LineAligned(s) then s else CompletePrefix(s[..|s| - 1])
  }

  lemma {:induction false} CompletePrefixIs(s: Bytes, p: Bytes)
    requires |p| <= |s| && p == s[..|p|] && LineAligned(p)
    ensures p == CompletePrefix(s) <==> forall k :: |p| <= k < |s| ==> s[k] != NEWLINE
    ensures |p| <= |CompletePrefix(s)|
  {
    if LineAligned(s) {
      assert |p| < |s| ==> s[|s| - 1] == NEWLINE;
      assert |p| == |s| ==> p == s;
    } else {
      assert p == s[..|s| - 1][..|p|];
      CompletePrefixIs(s[..|s| - 1], p);
      assert forall k :: 0 <= k < |s| - 1 ==> s[..|s| - 1][k] == s[k];
    }
  }

  /** A prefix of `b` behind `a`, as a prefix of both together. */
  lemma PrefixBehindLines(a: Bytes, b: Bytes, q: Bytes)
    requires LineAligned(a) && LineAligned(q) && |q| <= |b| && q == b[..|q|]
    ensures |a + q| <= |a + b| && a + q == (a + b)[..|a + q|] && LineAligned(a + q)
    ensures forall k :: |a + q| <= k < |a + b| ==> |q| <= k - |a| < |b| && (a + b)[k] == b[k - |a|]
  {
    if q == [] { ConcatUnit(a); } else { assert (a + q)[|a + q| - 1] == q[|q| - 1]; }
  }

  lemma CompletePrefixOfConcat(a: Bytes, b: Bytes)
    requires LineAligned(a)
    ensures CompletePrefix(a + b) == a + CompletePrefix(b)
  {
    var q := CompletePrefix(b);
    hide CompletePrefix, LineAligned;
    PrefixBehindLines(a, b, q);
    CompletePrefixIs(b, q);
    CompletePrefixIs(a + b, a + q);
  }

  /** Without a complete line there is nothing to keep. */
  lemma CompletePrefixEmpty(s: Bytes)
    ensures CompletePrefix(s) == [] <==> !HasLine(s)
  {
    IndexByteFinds(s, NEWLINE);
    CompletePrefixIs(s, []);
  }

  /** Strict byte-wise lexicographic order: the order of Go's `<` on strings and of SQLite's BINARY collation. */
  predicate Before(a: Bytes, b: Bytes) {
    if a == [] then b != []
    else b != [] && (a[0] < b[0] || (a[0] == b[0] && Before(a[1..], b[1..])))
  }

  lemma {:induction false} BeforeTotal(a: Bytes, b: Bytes)
    ensures Before(a, b) || a == b || Before(b, a)
    ensures !(Before(a, b) && Before(b, a))
    ensures !Before(a, a)
  {
    if a != [] {
      BeforeTotal(a[1..], a[1..]);
      if b != [] {
        BeforeTotal(a[1..], b[1..]);
        assert a == [a[0]] + a[1..] && b == [b[0]] + b[1..];
      }
    }
  }

  lemma {:induction false} BeforeTransitive(a: Bytes, b: Bytes, c: Bytes)
    requires Before(a, b) && Before(b, c)
    ensures Before(a, c)
  {
    if a != [] && a[0] == b[0] == c[0] {
      BeforeTransitive(a[1..], b[1..], c[1..]);
    }
  }

  /** The order goes by the first byte in which two strings differ, and a proper prefix comes first. */
  lemma {:induction false} BeforeIsByteWise(p: Bytes, x: byte, y: byte, s: Bytes, t: Bytes)
    ensures x != y ==> (Before(p + [x] + s, p + [y] + t) <==> x < y)
    ensures Before(p, p + [x] + s) && !Before(p + [x] + s, p)
  {
    if p != [] {
      BeforeIsByteWise(p[1..], x, y, s, t);
      assert (p + [x] + s)[1..] == p[1..] + [x] + s && (p + [y] + t)[1..] == p[1..] + [y] + t;
    }
  }

  /** The later of two timestamps. */
  function Later(a: Bytes, b: Bytes): Bytes {
    if Before(a, b) then b else a
  }

  /** `Later` is a commutative monoid with the empty timestamp as its unit. */
  lemma LaterMonoid(a: Bytes, b: Bytes, c: Bytes)
    ensures Later(a, Later(b, c)) == Later(Later(a, b), c)
    ensures Later(a, b) == Later(b, a)
    ensures Later([], a) == a == Later(a, []) == Later(a, a)
  {
    BeforeTotal(a, b);
    BeforeTotal(b, c);
    BeforeTotal(a, c);
    BeforeTotal(a, a);
    if Before(a, b) && Before(b, c) { BeforeTransitive(a, b, c); }
    if Before(c, b) && Before(b, a) { BeforeTransitive(c, b, a); }
    if Before(a, c) && Before(c, b) { BeforeTransitive(a, c, b); }
    if Before(b, a) && Before(a, c) { BeforeTransitive(b, a, c); }
  }
}
