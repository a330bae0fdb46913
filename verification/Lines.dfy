/** JSONL text as the sequence of its complete lines. */
module Lines {
  import opened Basics

  /** A single line: one newline, at its end. */
  predicate IsLine(l: Bytes) {
    l != [] && IndexByte(l, NEWLINE) == |l| - 1
  }

  ghost predicate AreLines(ls: seq<Bytes>) {
    forall i :: 0 <= i < |ls| ==> IsLine(ls[i])
  }

  function Flat(ls: seq<Bytes>): Bytes {
    if ls == [] then [] else ls[0] + Flat(ls[1..])
  }

  /** The complete lines of `s`; an unterminated tail is not among them. */
  function LinesOf(s: Bytes): seq<Bytes>
    decreases |s|
  {
    if !HasLine(s) then []
    else [FirstLine(s)] + LinesOf(s[|FirstLine(s)|..])
  }

  lemma {:induction false} FlatConcat(a: seq<Bytes>, b: seq<Bytes>)
    ensures Flat(a + b) == Flat(a) + Flat(b)
  {
    if a == [] {
      assert a + b == b;
    } else {
      FlatConcat(a[1..], b);
      assert (a + b)[1..] == a[1..] + b;
      ConcatAssociative(a[0], Flat(a[1..]), Flat(b));
    }
  }

  lemma FirstLineIsLine(s: Bytes)
    requires HasLine(s)
    ensures IsLine(FirstLine(s))
  {
    IndexByteFinds(s, NEWLINE);
    IndexByteFinds(FirstLine(s), NEWLINE);
    assert FirstLine(s)[IndexByte(s, NEWLINE)] == NEWLINE;
  }

  lemma LineIsTerminated(l: Bytes)
    requires IsLine(l)
    ensures Terminated(l) && HasLine(l) && FirstLine(l) == l
  {
    IndexByteFinds(l, NEWLINE);
  }

  /** Splitting and joining are inverse on lists of lines, whatever unterminated tail follows. */
  lemma {:induction false} LinesOfFlat(ls: seq<Bytes>, tail: Bytes)
    requires AreLines(ls) && !HasLine(tail)
    ensures LinesOf(Flat(ls) + tail) == ls
  {
    if ls == [] {
      assert [] + tail == tail;
    } else {
      var text := Flat(ls[1..]) + tail;
      LineIsTerminated(ls[0]);
      FirstLineOfConcat(ls[0], text);
      assert Flat(ls) + tail == ls[0] + text;
      LinesOfFlat(ls[1..], tail);
      assert (ls[0] + text)[|ls[0]|..] == text;
    }
  }

  lemma FlatEmpty(ls: seq<Bytes>)
    requires AreLines(ls)
    ensures Flat(ls) == [] <==> ls == []
  {
    assert ls != [] ==> IsLine(ls[0]);
  }

  /** Where the first line of joined lines ends, and what follows it. */
  lemma FlatFirst(ls: seq<Bytes>)
    requires AreLines(ls) && ls != []
    ensures IndexByte(Flat(ls), NEWLINE) == |ls[0]| - 1
    ensures Flat(ls)[..|ls[0]|] == ls[0] && Flat(ls)[|ls[0]|..] == Flat(ls[1..])
    ensures AreLines(ls[1..]) && ls[0] != []
  {
    LineIsTerminated(ls[0]);
    IndexByteOfConcat(ls[0], Flat(ls[1..]), NEWLINE);
  }

  lemma {:induction false} LinesOfAreLines(s: Bytes)
    ensures AreLines(LinesOf(s))
    decreases |s|
  {
    if HasLine(s) {
      FirstLineIsLine(s);
      LinesOfAreLines(s[|FirstLine(s)|..]);
    }
  }

  /** Splitting loses exactly the unterminated tail. */
  lemma {:induction false} FlatLinesOf(s: Bytes)
    ensures Flat(LinesOf(s)) == CompletePrefix(s)
    decreases |s|
  {
    if HasLine(s) {
      var l := FirstLine(s);
      var rest := s[|l|..];
      FirstLineIsLine(s);
      LineIsTerminated(l);
      FlatLinesOf(rest);
      CompletePrefixOfConcat(l, rest);
      assert s == l + rest;
    } else {
      CompletePrefixEmpty(s);
    }
  }

  lemma FlatOfAligned(s: Bytes)
    requires LineAligned(s)
    ensures Flat(LinesOf(s)) == s
  {
    FlatLinesOf(s);
  }

  /** The unterminated tail of a text holds no line. */
  lemma TailHasNoLine(s: Bytes)
    ensures !HasLine(s[|CompletePrefix(s)|..])
    ensures s == CompletePrefix(s) + s[|CompletePrefix(s)|..]
  {
    CompletePrefixIs(s, CompletePrefix(s));
    IndexByteFinds(s[|CompletePrefix(s)|..], NEWLINE);
  }

  lemma LinesOfConcat(a: Bytes, b: Bytes)
    requires LineAligned(a)
    ensures LinesOf(a + b) == LinesOf(a) + LinesOf(b)
  {
    TailHasNoLine(b);
    FlatOfAligned(a);
    FlatLinesOf(b);
    LinesOfAreLines(a);
    LinesOfAreLines(b);
    LinesOfParts(LinesOf(a), LinesOf(b), b[|CompletePrefix(b)|..]);
  }

  lemma LinesOfParts(a: seq<Bytes>, b: seq<Bytes>, tail: Bytes)
    requires AreLines(a) && AreLines(b) && !HasLine(tail)
    ensures LinesOf(Flat(a) + (Flat(b) + tail)) == a + b
  {
    AreLinesConcat(a, b);
    FlatConcat(a, b);
    LinesOfFlat(a + b, tail);
    ConcatAssociative(Flat(a), Flat(b), tail);
  }

  lemma AreLinesConcat(a: seq<Bytes>, b: seq<Bytes>)
    ensures AreLines(a + b) <==> AreLines(a) && AreLines(b)
  {
    forall i | 0 <= i < |a|
      ensures (a + b)[i] == a[i]
    {
    }
    forall i | 0 <= i < |b|
      ensures (a + b)[i + |a|] == b[i]
    {
    }
  }
}
