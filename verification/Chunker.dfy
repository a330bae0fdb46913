/** The line-aligned chunker: reading lines through a bounded buffer and grouping them for upload. */
module Chunker {
  import opened Basics
  import opened Lines
  import opened Vault

  const BUFFER: nat := 65_536

  datatype SliceStatus = Found | BufferFull | EndOfFile

  /** A buffered reader over file contents; `pos` is how much of them it has returned. */
  class Reader {
    const data: Bytes
    var pos: nat

    ghost predicate Valid()
      reads this
    {
      pos <= |data|
    }

    constructor (data: Bytes, pos: nat)
      requires pos <= |data|
      ensures Valid() && this.data == data && this.pos == pos
    {
      this.data := data;
      this.pos := pos;
    }

    /** `bufio.Reader.ReadSlice('\n')`: the rest of the line, unless the buffer or the file ends first. */
    method ReadSlice() returns (part: Bytes, status: SliceStatus)
      requires Valid()
      modifies this
      ensures Valid() && pos == old(pos) + |part| && part == data[old(pos)..pos]
      ensures status.Found? ==> Terminated(part) && IndexByte(part, NEWLINE) == |part| - 1
      ensures !status.Found? ==> !HasLine(part)
      ensures status.EndOfFile? <==> !status.Found? && pos == |data| && |part| < BUFFER
      ensures |part| <= BUFFER && (status.BufferFull? ==> |part| == BUFFER)
    {
      hide IndexByte, FirstLine, Terminated, HasLine;
      var size := if |data| - pos < BUFFER then |data| - pos else BUFFER;
      var window := data[pos..pos + size];
      var i := IndexByte(window, NEWLINE);
      if i >= 0 {
        part, status := data[pos..pos + i + 1], Found;
        LineInWindow(window, part) by { SliceInSlice(data, pos, size, i + 1); }
      } else {
        part, status := window, if size == BUFFER then BufferFull else EndOfFile;
        assert !HasLine(part) by { NoneFound(window); }
      }
      pos := pos + |part|;
    }
  }

  lemma SliceInSlice<T>(s: seq<T>, at: nat, n: nat, m: nat)
    requires m <= n && at + n <= |s|
    ensures s[at..at + m] == s[at..at + n][..m]
  {
  }

  lemma NoneFound(s: Bytes)
    requires IndexByte(s, NEWLINE) < 0
    ensures !HasLine(s)
  {
  }

  /** The part of a window up to its first newline. */
  lemma LineInWindow(window: Bytes, part: Bytes)
    requires IndexByte(window, NEWLINE) >= 0 && part == window[..IndexByte(window, NEWLINE) + 1]
    ensures Terminated(part) && IndexByte(part, NEWLINE) == |part| - 1
  {
    hide IndexByte;
    FirstLineIsLine(window);
    LineIsTerminated(part);
  }

  datatype LineResult = Line(line: Bytes) | Partial(line: Bytes) | TooLong

  /** What `readLine` makes of the rest of a file, whatever the buffer size. */
  function NextLine(rest: Bytes): LineResult {
    if |FirstLine(rest)| > MAX_LINE then TooLong
    else if HasLine(rest) then Line(FirstLine(rest))
    else Partial(rest)
  }

  /** `a` is a start of `s` without a newline, `b` continues it: where the first line of `s` ends. */
  lemma FirstLineInPieces(s: Bytes, a: Bytes, b: Bytes)
    requires |a + b| <= |s| && s[..|a + b|] == a + b && !HasLine(a)
    ensures HasLine(b) && IndexByte(b, NEWLINE) == |b| - 1 ==> HasLine(s) && FirstLine(s) == a + b
    ensures !HasLine(b) ==> !HasLine(a + b) && |a + b| <= |FirstLine(s)|
    ensures !HasLine(b) && |a + b| == |s| ==> !HasLine(s) && FirstLine(s) == s == a + b
  {
    hide IndexByte;
    IndexInPieces(a, b);
    if HasLine(a + b) {
      IndexInStart(s, a + b);
    } else {
      NoLineInStart(s, a + b);
    }
    assert |a + b| == |s| ==> s[..|a + b|] == s;
  }

  lemma IndexInPieces(a: Bytes, b: Bytes)
    requires !HasLine(a)
    ensures IndexByte(a + b, NEWLINE) == if HasLine(b) then |a| + IndexByte(b, NEWLINE) else -1
  {
    hide IndexByte;
    IndexByteFinds(a, NEWLINE);
    IndexByteFinds(b, NEWLINE);
    IndexByteFinds(a + b, NEWLINE);
    var s := a + b;
    assert forall n :: 0 <= n < |a| ==> s[n] == a[n];
    assert forall n :: 0 <= n < |b| ==> s[|a| + n] == b[n];
    if HasLine(s) && IndexByte(s, NEWLINE) >= |a| { assert b[IndexByte(s, NEWLINE) - |a|] == NEWLINE; }
  }

  lemma IndexInStart(s: Bytes, start: Bytes)
    requires |start| <= |s| && s[..|start|] == start && HasLine(start)
    ensures IndexByte(s, NEWLINE) == IndexByte(start, NEWLINE)
  {
    hide IndexByte;
    assert s == start + s[|start|..];
    IndexByteOfConcat(start, s[|start|..], NEWLINE);
  }

  lemma NoLineInStart(s: Bytes, start: Bytes)
    requires |start| <= |s| && s[..|start|] == start && !HasLine(start)
    ensures |start| <= |FirstLine(s)|
    ensures |start| == |s| ==> !HasLine(s) && FirstLine(s) == s
  {
    hide IndexByte;
    IndexByteFinds(s, NEWLINE);
    IndexByteFinds(start, NEWLINE);
    assert forall n :: 0 <= n < |start| ==> s[n] == start[n];
  }

  /** `readLine`: collects buffer-sized parts until a newline or the end, and gives up above the limit. */
  method ReadLine(reader: Reader) returns (r: LineResult)
    requires reader.Valid()
    modifies reader
    ensures reader.Valid()
    ensures r == NextLine(reader.data[old(reader.pos)..])
    ensures r.Line? ==> reader.pos == old(reader.pos) + |r.line|
  {
    hide IndexByte, FirstLine;
    ghost var rest := reader.data[reader.pos..];
    var line: Bytes := [];
    NoLineInNothing();
    while true
      invariant reader.Valid() && reader.pos == old(reader.pos) + |line|
      invariant line == rest[..|line|] && !HasLine(line)
      invariant |line| <= MAX_LINE
      decreases |reader.data| - reader.pos
    {
      var part, status := reader.ReadSlice();
      ghost var before := line;
      FirstLineInPieces(rest, line, part) by {
        assert rest[..|line| + |part|] == line + part;
      }
      line := line + part;
      if |line| > MAX_LINE {
        return TooLong;
      }
      match status
      case Found => return Line(line);
      case BufferFull =>
      case EndOfFile =>
        return Partial(line);
    }
  }

  lemma NoLineInNothing()
    ensures !HasLine([])
  {
  }

  // Grouping.

  /** The chunks emitted, and whether the file was read to its end. */
  datatype CutResult = CutResult(chunks: seq<Bytes>, complete: bool)

  /** What is collected once `line` has been added, the rest having gone out first if the two are too much. */
  function GrownBy(acc: Bytes, line: Bytes): Bytes {
    if acc != [] && |acc| + |line| > TARGET_CHUNK then line else acc + line
  }

  /** What the chunker emits from `lines` and an unterminated `tail`, with `acc` already collected. */
  function Group(acc: Bytes, lines: seq<Bytes>, tail: Bytes): CutResult
    decreases |lines|
  {
    if lines == [] then
      if |tail| > MAX_LINE then CutResult([], false)
      else CutResult(if acc == [] then [] else [acc], true)
    else if |lines[0]| > MAX_LINE then CutResult([], false)
    else
      var early := acc != [] && |acc| + |lines[0]| > TARGET_CHUNK;
      var grown := GrownBy(acc, lines[0]);
      var full := |grown| >= TARGET_CHUNK;
      var rest := Group(if full then [] else grown, lines[1..], tail);
      CutResult((if early then [acc] else []) + (if full then [grown] else []) + rest.chunks, rest.complete)
  }

  /** The unterminated end of a text. */
  function TailOf(s: Bytes): Bytes {
    s[|CompletePrefix(s)|..]
  }

  /** What the chunker emits from the rest of a file. */
  function CutText(text: Bytes): CutResult {
    Group([], LinesOf(text), TailOf(text))
  }

  /** No line, complete or not, is above the limit. */
  predicate Fits(lines: seq<Bytes>, tail: Bytes) {
    |tail| <= MAX_LINE && forall i :: 0 <= i < |lines| ==> |lines[i]| <= MAX_LINE
  }

  /** One step of `Group`, without its case split. */
  lemma GroupStep(acc: Bytes, lines: seq<Bytes>, tail: Bytes) returns (emitted: seq<Bytes>, next: Bytes)
    requires lines != [] && |lines[0]| <= MAX_LINE
    ensures Group(acc, lines, tail)
         == CutResult(emitted + Group(next, lines[1..], tail).chunks, Group(next, lines[1..], tail).complete)
    ensures emitted == (if acc != [] && |acc| + |lines[0]| > TARGET_CHUNK then [acc] else [])
      + (if |GrownBy(acc, lines[0])| >= TARGET_CHUNK then [GrownBy(acc, lines[0])] else [])
    ensures next == (if |GrownBy(acc, lines[0])| >= TARGET_CHUNK then [] else GrownBy(acc, lines[0]))
    ensures Flat(emitted) + next == acc + lines[0]
    ensures emitted == [] ==> next == acc + lines[0]
    ensures emitted != [] && acc != [] ==> acc <= emitted[0]
    ensures |emitted| == 2 ==> |emitted[0]| + |emitted[1]| > TARGET_CHUNK
    ensures emitted != [] && next != [] ==> |emitted[|emitted| - 1]| + |next| > TARGET_CHUNK
    ensures emitted != [] && next == [] ==> |emitted[|emitted| - 1]| >= TARGET_CHUNK
  {
    var early := acc != [] && |acc| + |lines[0]| > TARGET_CHUNK;
    var grown := GrownBy(acc, lines[0]);
    var full := |grown| >= TARGET_CHUNK;
    emitted := (if early then [acc] else []) + (if full then [grown] else []);
    next := if full then [] else grown;
    FlatUpToTwo(acc, grown);
    if early && full {
      assert emitted == [acc, grown];
    } else if early {
      assert emitted == [acc];
    } else if full {
      assert emitted == [grown];
    }
  }

  /** A line that would overfill what was collected: that goes out first. */
  lemma GroupEarly(acc: Bytes, lines: seq<Bytes>, tail: Bytes)
    requires acc != [] && lines != [] && |lines[0]| <= MAX_LINE && |acc| + |lines[0]| > TARGET_CHUNK
    ensures Group(acc, lines, tail)
         == CutResult([acc] + Group([], lines, tail).chunks, Group([], lines, tail).complete)
  {
    var line := lines[0];
    ConcatUnit(line);
    var out := if |line| >= TARGET_CHUNK then [line] else [];
    var rest := Group(if |line| >= TARGET_CHUNK then [] else line, lines[1..], tail);
    assert GrownBy(acc, line) == line == GrownBy([], line);
    assert Group(acc, lines, tail) == CutResult([acc] + out + rest.chunks, rest.complete);
    assert Group([], lines, tail) == CutResult([] + out + rest.chunks, rest.complete);
    ConcatAssociative([acc], out, rest.chunks);
    ConcatUnit(out);
  }

  /** Otherwise the line is collected, and goes out with the rest once that is full. */
  lemma GroupNext(acc: Bytes, lines: seq<Bytes>, tail: Bytes)
    requires lines != [] && |lines[0]| <= MAX_LINE && (acc == [] || |acc| + |lines[0]| <= TARGET_CHUNK)
    ensures var grown := acc + lines[0];
      Group(acc, lines, tail)
      == if |grown| >= TARGET_CHUNK
         then CutResult([grown] + Group([], lines[1..], tail).chunks, Group([], lines[1..], tail).complete)
         else Group(grown, lines[1..], tail)
  {
  }

  lemma FlatUpToTwo(a: Bytes, b: Bytes)
    ensures Flat([]) == [] && Flat([a]) == a && Flat([b]) == b && Flat([a, b]) == a + b
  {
    assert [a, b][1..] == [b] && [a][1..] == [] && [b][1..] == [];
    ConcatUnit(a);
    ConcatUnit(b);
  }

  /** What may be collected between two emissions. */
  predicate Collected(acc: Bytes) {
    LineAligned(acc) && |acc| < TARGET_CHUNK
  }

  /** A chunk the server can take: whole lines, within the target size unless it is one single line. */
  predicate GoodChunk(c: Bytes) {
    Terminated(c) && (|c| <= TARGET_CHUNK || (IsLine(c) && |c| <= MAX_LINE))
  }

  lemma StepIsGood(acc: Bytes, line: Bytes)
    requires Collected(acc) && IsLine(line) && |line| <= MAX_LINE
    ensures Terminated(line) && Terminated(acc + line)
    ensures GoodChunk(line) && (acc != [] ==> GoodChunk(acc))
    ensures |acc + line| <= TARGET_CHUNK || acc == [] ==> GoodChunk(acc + line)
  {
    LineIsTerminated(line);
    assert (acc + line)[|acc + line| - 1] == line[|line| - 1];
    ConcatUnit(line);
  }

  ghost predicate AllGood(chunks: seq<Bytes>) {
    forall i :: 0 <= i < |chunks| ==> GoodChunk(chunks[i])
  }

  lemma AllGoodConcat(a: seq<Bytes>, b: seq<Bytes>)
    requires AllGood(a) && AllGood(b)
    ensures AllGood(a + b)
  {
    hide GoodChunk;
  }

  lemma AlignedIsGood(acc: Bytes)
    requires Collected(acc) && acc != []
    ensures GoodChunk(acc)
  {
  }

  lemma GrownIsGood(acc: Bytes, line: Bytes)
    requires Collected(acc) && IsLine(line) && |line| <= MAX_LINE
    ensures GoodChunk(GrownBy(acc, line)) && Terminated(GrownBy(acc, line))
  {
    StepIsGood(acc, line);
    ConcatUnit(line);
  }

  /** One step emits good chunks only, and leaves something that may be collected. */
  lemma StepEmitsGood(acc: Bytes, lines: seq<Bytes>, tail: Bytes, emitted: seq<Bytes>, next: Bytes)
    requires Collected(acc) && lines != [] && IsLine(lines[0]) && |lines[0]| <= MAX_LINE
    requires emitted == (if acc != [] && |acc| + |lines[0]| > TARGET_CHUNK then [acc] else [])
      + (if |GrownBy(acc, lines[0])| >= TARGET_CHUNK then [GrownBy(acc, lines[0])] else [])
    requires next == (if |GrownBy(acc, lines[0])| >= TARGET_CHUNK then [] else GrownBy(acc, lines[0]))
    ensures AllGood(emitted) && Collected(next)
  {
    var grown := GrownBy(acc, lines[0]);
    var early, full := acc != [] && |acc| + |lines[0]| > TARGET_CHUNK, |grown| >= TARGET_CHUNK;
    GrownIsGood(acc, lines[0]);
    if acc != [] { AlignedIsGood(acc); }
    hide GrownBy, Terminated, IsLine, GoodChunk;
    AllGoodConcat(if early then [acc] else [], if full then [grown] else []);
  }

  lemma {:induction false} GroupGood(acc: Bytes, lines: seq<Bytes>, tail: Bytes)
    requires Collected(acc) && AreLines(lines)
    ensures AllGood(Group(acc, lines, tail).chunks)
    ensures Group(acc, lines, tail).complete <==> Fits(lines, tail)
    decreases |lines|
  {
    hide IsLine, Terminated, GoodChunk;
    if lines == [] || |lines[0]| > MAX_LINE {
      if acc != [] { AlignedIsGood(acc); }
    } else {
      assert IsLine(lines[0]);
      var emitted, next := GroupStep(acc, lines, tail);
      StepEmitsGood(acc, lines, tail, emitted, next);
      hide Group, Collected;
      GroupGood(next, lines[1..], tail);
      AllGoodConcat(emitted, Group(next, lines[1..], tail).chunks);
      FitsStep(lines, tail);
    }
  }

  lemma FitsStep(lines: seq<Bytes>, tail: Bytes)
    requires lines != []
    ensures Fits(lines, tail) <==> |lines[0]| <= MAX_LINE && Fits(lines[1..], tail)
  {
    assert forall i :: 0 <= i < |lines[1..]| ==> lines[1..][i] == lines[i + 1];
    assert forall i :: 0 < i < |lines| ==> lines[i] == lines[1..][i - 1];
  }

  /** Nothing is lost or reordered: what goes out is what was collected and read, all of it once the end is reached. */
  lemma {:induction false} GroupFlat(acc: Bytes, lines: seq<Bytes>, tail: Bytes)
    ensures Flat(Group(acc, lines, tail).chunks) <= acc + Flat(lines)
    ensures Group(acc, lines, tail).complete ==> Flat(Group(acc, lines, tail).chunks) == acc + Flat(lines)
    decreases |lines|
  {
    if lines == [] {
      ConcatUnit(acc);
      FlatUpToTwo(acc, acc);
    } else if |lines[0]| <= MAX_LINE {
      var emitted, next := GroupStep(acc, lines, tail);
      hide Group, Flat;
      GroupFlat(next, lines[1..], tail);
      FlatConcat(emitted, Group(next, lines[1..], tail).chunks);
      FlatCons(lines);
      ConcatAssociative(Flat(emitted), next, Flat(lines[1..]));
      ConcatAssociative(acc, lines[0], Flat(lines[1..]));
      PrefixBehind(Flat(emitted), Flat(Group(next, lines[1..], tail).chunks), next + Flat(lines[1..]));
    }
  }

  lemma PrefixBehind<T>(a: seq<T>, b: seq<T>, c: seq<T>)
    requires b <= c
    ensures a + b <= a + c
  {
    assert c == b + c[|b|..];
    ConcatAssociative(a, b, c[|b|..]);
  }

  lemma FlatCons(ls: seq<Bytes>)
    requires ls != []
    ensures Flat(ls) == ls[0] + Flat(ls[1..])
  {
  }

  /** What was collected goes out first. */
  lemma {:induction false} GroupStartsWith(acc: Bytes, lines: seq<Bytes>, tail: Bytes)
    requires acc != [] && Group(acc, lines, tail).chunks != []
    ensures acc <= Group(acc, lines, tail).chunks[0]
    decreases |lines|
  {
    if lines != [] {
      var emitted, next := GroupStep(acc, lines, tail);
      hide Group;
      if emitted == [] {
        ConcatUnit(Group(next, lines[1..], tail).chunks);
        GroupStartsWith(next, lines[1..], tail);
      }
    }
  }

  /** Any two consecutive chunks together exceed the target size. */
  ghost predicate PairsExceed(chunks: seq<Bytes>) {
    forall i, j :: 0 <= i && j == i + 1 && j < |chunks| ==> |chunks[i]| + |chunks[j]| > TARGET_CHUNK
  }

  lemma {:induction false} GroupPairs(acc: Bytes, lines: seq<Bytes>, tail: Bytes)
    requires Collected(acc) && AreLines(lines)
    ensures PairsExceed(Group(acc, lines, tail).chunks)
    decreases |lines|
  {
    hide IsLine, Terminated, GoodChunk;
    if lines != [] && |lines[0]| <= MAX_LINE {
      assert IsLine(lines[0]);
      var emitted, next := GroupStep(acc, lines, tail);
      StepEmitsGood(acc, lines, tail, emitted, next);
      GroupPairs(next, lines[1..], tail);
      GroupGood(next, lines[1..], tail);
      hide Group, Collected;
      var rest := Group(next, lines[1..], tail).chunks;
      if rest != [] {
        if next != [] { GroupStartsWith(next, lines[1..], tail); }
        assert GoodChunk(rest[0]);
        GoodIsNonEmpty(rest[0]);
      }
      JoinPairs(emitted, rest);
    }
  }

  lemma GoodIsNonEmpty(c: Bytes)
    requires GoodChunk(c)
    ensures c != []
  {
  }

  lemma JoinPairs(a: seq<Bytes>, b: seq<Bytes>)
    requires |a| <= 2 && (|a| == 2 ==> |a[0]| + |a[1]| > TARGET_CHUNK) && PairsExceed(b)
    requires a != [] && b != [] ==> |a[|a| - 1]| + |b[0]| > TARGET_CHUNK
    ensures PairsExceed(a + b)
  {
    var c := a + b;
    forall i, j | 0 <= i && j == i + 1 && j < |c|
      ensures |c[i]| + |c[j]| > TARGET_CHUNK
    {
      if i >= |a| {
        assert c[i] == b[i - |a|] && c[j] == b[j - |a|];
      }
    }
  }

  /** Chunks are few: each consecutive pair carries more than one target size. */
  lemma {:induction false} ChunkCount(chunks: seq<Bytes>)
    requires PairsExceed(chunks)
    ensures |chunks| / 2 * (TARGET_CHUNK + 1) <= |Flat(chunks)|
    decreases |chunks|
  {
    if |chunks| >= 2 {
      var rest := chunks[2..];
      assert forall i :: 0 <= i < |rest| ==> rest[i] == chunks[i + 2];
      ChunkCount(rest);
      FlatCons(chunks);
      FlatCons(chunks[1..]);
      assert chunks[1..][1..] == rest && chunks[1..][0] == chunks[1];
      assert |chunks| / 2 == |rest| / 2 + 1;
    }
  }

  /** Where the first chunk ends, chunking starts afresh: no state is carried over. */
  lemma {:induction false} FirstChunk(acc: Bytes, lines: seq<Bytes>, tail: Bytes) returns (n: nat)
    requires Group(acc, lines, tail).chunks != []
    ensures n <= |lines| && Group(acc, lines, tail).chunks[0] == acc + Flat(lines[..n])
    ensures Group([], lines[n..], tail)
         == CutResult(Group(acc, lines, tail).chunks[1..], Group(acc, lines, tail).complete)
    decreases |lines|
  {
    n := 0;
    ConcatUnit(acc);
    assert lines[0..] == lines && Flat(lines[..0]) == [];
    if lines != [] {
      assert |lines[0]| <= MAX_LINE;
      hide Group;
      if acc != [] && |acc| + |lines[0]| > TARGET_CHUNK {
        GroupEarly(acc, lines, tail);
      } else {
        GroupNext(acc, lines, tail);
        if |acc + lines[0]| >= TARGET_CHUNK {
          n := 1;
          FirstLines(acc, lines, 0, 1);
        } else {
          var more := FirstChunk(acc + lines[0], lines[1..], tail);
          n := more + 1;
          FirstLines(acc, lines, more, n);
        }
      }
    }
  }

  lemma FirstLines(acc: Bytes, lines: seq<Bytes>, more: nat, n: nat)
    requires lines != [] && n == more + 1 && n <= |lines|
    ensures acc + lines[0] + Flat(lines[1..][..more]) == acc + Flat(lines[..n])
    ensures lines[1..][more..] == lines[n..]
  {
    assert lines[..n] == [lines[0]] + lines[1..][..more];
    FlatConcat([lines[0]], lines[1..][..more]);
    FlatUpToTwo(lines[0], []);
    assert more == 0 ==> Flat(lines[1..][..more]) == [];
    hide Flat;
    ConcatAssociative(acc, lines[0], Flat(lines[1..][..more]));
  }

  /** A text as its lines and its tail. */
  lemma TextInLines(text: Bytes)
    ensures AreLines(LinesOf(text)) && !HasLine(TailOf(text))
    ensures text == Flat(LinesOf(text)) + TailOf(text) && Flat(LinesOf(text)) == CompletePrefix(text)
  {
    LinesOfAreLines(text);
    FlatLinesOf(text);
    TailHasNoLine(text);
  }

  lemma LinesInText(lines: seq<Bytes>, tail: Bytes)
    requires AreLines(lines) && !HasLine(tail)
    ensures LinesOf(Flat(lines) + tail) == lines && TailOf(Flat(lines) + tail) == tail
  {
    LinesOfFlat(lines, tail);
    FlatLinesOf(Flat(lines) + tail);
    DropLeft(Flat(lines), tail);
  }

  /**
   * What the chunker emits for a text: chunks the server can take, which join to a prefix of the text, and
   * to its longest prefix of whole lines when no line is above the limit; and no more of them than the
   * size calls for.
   */
  lemma CutIsGood(text: Bytes)
    ensures var r := CutText(text);
      && AllGood(r.chunks)
      && Flat(r.chunks) <= CompletePrefix(text)
      && (r.complete <==> Fits(LinesOf(text), TailOf(text)))
      && (r.complete ==> Flat(r.chunks) == CompletePrefix(text))
      && |r.chunks| / 2 * (TARGET_CHUNK + 1) <= |text|
  {
    hide Fits, GoodChunk, PairsExceed;
    TextInLines(text);
    GroupGood([], LinesOf(text), TailOf(text));
    GroupFlat([], LinesOf(text), TailOf(text));
    GroupPairs([], LinesOf(text), TailOf(text));
    ConcatUnit(CompletePrefix(text));
    ChunkCount(CutText(text).chunks);
  }

  lemma SplitLines(lines: seq<Bytes>, n: nat, tail: Bytes)
    requires n <= |lines|
    ensures Flat(lines) + tail == Flat(lines[..n]) + (Flat(lines[n..]) + tail)
    ensures AreLines(lines) ==> AreLines(lines[n..])
  {
    hide Flat, IsLine;
    assert lines == lines[..n] + lines[n..];
    FlatConcat(lines[..n], lines[n..]);
    AreLinesConcat(lines[..n], lines[n..]);
    ConcatAssociative(Flat(lines[..n]), Flat(lines[n..]), tail);
  }

  lemma CutResumesOnce(text: Bytes)
    requires CutText(text).chunks != []
    ensures var c := CutText(text).chunks[0];
      && c <= text
      && CutText(text[|c|..]) == CutResult(CutText(text).chunks[1..], CutText(text).complete)
  {
    var lines, tail := LinesOf(text), TailOf(text);
    TextInLines(text);
    var n := FirstChunk([], lines, tail);
    hide Group, LinesOf, TailOf, HasLine, Flat, AreLines, CompletePrefix;
    var first, rest := Flat(lines[..n]), lines[n..];
    ConcatUnit(first);
    SplitLines(lines, n, tail);
    LinesInText(rest, tail);
    DropLeft(first, Flat(rest) + tail);
  }

  /** Resumability: restarting at the end of any emitted chunk yields exactly the remaining chunks. */
  lemma {:induction false} CutResumes(text: Bytes, i: nat)
    requires i <= |CutText(text).chunks|
    ensures var at := |Flat(CutText(text).chunks[..i])|;
      && at <= |text|
      && CutText(text[at..]) == CutResult(CutText(text).chunks[i..], CutText(text).complete)
    decreases i
  {
    hide Group, LinesOf, TailOf;
    var chunks := CutText(text).chunks;
    if i == 0 {
      assert text[0..] == text && chunks[0..] == chunks && chunks[..0] == [];
    } else {
      hide CutText;
      CutResumesOnce(text);
      var c := chunks[0];
      var rest := text[|c|..];
      CutResumes(rest, i - 1);
      SkipOne(text, chunks, |Flat(chunks[1..][..i - 1])|, i, i - 1);
    }
  }

  lemma SkipOne(text: Bytes, chunks: seq<Bytes>, at: nat, i: nat, before: nat)
    requires 0 < i <= |chunks| && before == i - 1 && chunks[0] <= text
    requires at == |Flat(chunks[1..][..before])| && at <= |text[|chunks[0]|..]|
    ensures |Flat(chunks[..i])| == |chunks[0]| + at <= |text|
    ensures text[|Flat(chunks[..i])|..] == text[|chunks[0]|..][at..] && chunks[i..] == chunks[1..][before..]
  {
    assert chunks[..i] == [chunks[0]] + chunks[1..][..before];
    FlatConcat([chunks[0]], chunks[1..][..before]);
    FlatUpToTwo(chunks[0], []);
  }

  /** What comes first, line or tail, is above the limit. */
  predicate StartsTooLong(lines: seq<Bytes>, tail: Bytes) {
    if lines == [] then |tail| > MAX_LINE else |lines[0]| > MAX_LINE
  }

  /** More lines keep every chunk but the last, which grows; behind a line above the limit nothing is read. */
  lemma {:induction false} GroupStable(acc: Bytes, a: seq<Bytes>, t: Bytes, b: seq<Bytes>, u: Bytes)
    ensures Group(acc, a, t).complete ==> Grown(Group(acc, a, t).chunks, Group(acc, a + b, u))
    ensures !Group(acc, a, t).complete && |t| <= MAX_LINE ==> Group(acc, a + b, u) == Group(acc, a, t)
    ensures |t| > MAX_LINE && StartsTooLong(b, u) ==> Group(acc, a + b, u) == Group(acc, a, t)
    decreases |a|
  {
    if a == [] {
      assert a + b == b;
      if acc != [] && Group(acc, b, u).complete {
        GroupFlat(acc, b, u);
        assert Group(acc, b, u).chunks != [];
        GroupStartsWith(acc, b, u);
      }
    } else if |a[0]| <= MAX_LINE {
      assert (a + b)[1..] == a[1..] + b;
      var emitted, next := SameStep(acc, a, t, a + b, u);
      hide Group;
      GroupStable(next, a[1..], t, b, u);
      if Group(next, a[1..], t).complete {
        GrowBehind(emitted, Group(next, a[1..], t).chunks, Group(next, a[1..] + b, u));
      }
    }
  }

  /** `later` has all of `chunks` but the last, which it continues if it got to the end of its file. */
  ghost predicate Grown(chunks: seq<Bytes>, later: CutResult) {
    chunks != [] ==>
      && chunks[..|chunks| - 1] <= later.chunks
      && (later.complete ==> |chunks| <= |later.chunks| && chunks[|chunks| - 1] <= later.chunks[|chunks| - 1])
  }

  lemma GrowBehind(emitted: seq<Bytes>, chunks: seq<Bytes>, later: CutResult)
    requires Grown(chunks, later)
    ensures Grown(emitted + chunks, CutResult(emitted + later.chunks, later.complete))
  {
    if chunks != [] {
      var all := emitted + chunks;
      assert all[..|all| - 1] == emitted + chunks[..|chunks| - 1];
      PrefixBehind(emitted, chunks[..|chunks| - 1], later.chunks);
    } else if emitted != [] {
      ConcatUnit(emitted);
      assert emitted[..|emitted| - 1] == (emitted + later.chunks)[..|emitted| - 1];
    }
  }

  /** The same line has the same effect, whatever comes after it. */
  lemma SameStep(acc: Bytes, a: seq<Bytes>, t: Bytes, b: seq<Bytes>, u: Bytes) returns (emitted: seq<Bytes>,
                 next: Bytes)
    requires a != [] && b != [] && a[0] == b[0] && |a[0]| <= MAX_LINE
    ensures Group(acc, a, t) == CutResult(emitted + Group(next, a[1..], t).chunks, Group(next, a[1..], t).complete)
    ensures Group(acc, b, u) == CutResult(emitted + Group(next, b[1..], u).chunks, Group(next, b[1..], u).complete)
  {
    var early := acc != [] && |acc| + |a[0]| > TARGET_CHUNK;
    var grown := if early then a[0] else acc + a[0];
    var full := |grown| >= TARGET_CHUNK;
    emitted := (if early then [acc] else []) + (if full then [grown] else []);
    next := if full then [] else grown;
  }

  /** An unterminated tail above the limit stays a line, or a tail, above the limit. */
  lemma LongTailStays(tail: Bytes, more: Bytes)
    requires !HasLine(tail) && |tail| > MAX_LINE
    ensures StartsTooLong(LinesOf(tail + more), TailOf(tail + more))
  {
    hide IndexByte, FirstLine;
    var s := tail + more;
    if HasLine(s) {
      FirstLineInPieces(s, [], tail) by { assert s[..|[] + tail|] == [] + tail && !HasLine([]); }
    } else {
      CompletePrefixEmpty(s);
    }
  }

  /**
   * Prefix stability: appending to a file keeps every chunk except possibly the last, and the new version
   * of that one starts with the old. Behind a record above the limit nothing is ever read.
   */
  lemma AppendKeepsChunks(text: Bytes, more: Bytes)
    ensures CutText(text).complete ==> Grown(CutText(text).chunks, CutText(text + more))
    ensures !CutText(text).complete ==> CutText(text + more) == CutText(text)
  {
    hide Group, Grown, HasLine, CompletePrefix;
    var lines, tail := LinesOf(text), TailOf(text);
    var extra := tail + more;
    TextInLines(text);
    TextInLines(extra);
    ConcatAssociative(Flat(lines), tail, more);
    LinesOfParts(lines, LinesOf(extra), TailOf(extra));
    LinesInText(lines + LinesOf(extra), TailOf(extra)) by { AreLinesConcat(lines, LinesOf(extra)); }
    FlatConcat(lines, LinesOf(extra));
    ConcatAssociative(Flat(lines), Flat(LinesOf(extra)), TailOf(extra));
    GroupStable([], lines, tail, LinesOf(extra), TailOf(extra));
    if |tail| > MAX_LINE { LongTailStays(tail, more); }
  }
}
