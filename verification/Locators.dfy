/** Event positions as locators into the archive: reading a tool output back always works. */
module Locators {
  import opened Basics
  import opened Indexing
  import opened Invariant
  import opened Lines
  import opened Queries
  import opened Records
  import opened Replay
  import opened Server
  import opened Store
  import opened Tables
  import opened Vault
  import Utf8

  /** Cutting at the start of line `n` of whole lines gives exactly that line, whatever follows the text. */
  lemma CutIsLine(lines: seq<Bytes>, n: nat, after: Bytes)
    requires AreLines(lines) && n < |lines|
    ensures var at := |Flat(lines[..n])|;
      && at + |lines[n]| <= |Flat(lines)|
      && CutRecord(Flat(lines), at) == Ok(lines[n])
      && FirstLine((Flat(lines) + after)[at..]) == lines[n]
  {
    var left, right := lines[..n], lines[n..];
    var at := |Flat(left)|;
    assert left + right == lines;
    FlatConcat(left, right);
    assert forall i :: 0 <= i < |right| ==> right[i] == lines[n + i];
    FlatFirst(right);
    hide IndexByte, Flat, IsLine;
    CutFirst(Flat(left), Flat(right), after, lines[n]);
  }

  lemma CutAt(text: Bytes, at: nat, right: Bytes, line: Bytes)
    requires at < |text| && text[at..] == right
    requires IndexByte(right, NEWLINE) == |line| - 1 && line != [] && |line| <= |right| && right[..|line|] == line
    ensures CutRecord(text, at) == Ok(line)
    ensures HasLine(right) && FirstLine(right) == line
  {
    hide IndexByte;
  }

  lemma CutFirst(left: Bytes, right: Bytes, after: Bytes, line: Bytes)
    requires IndexByte(right, NEWLINE) == |line| - 1 && line != [] && |line| <= |right| && right[..|line|] == line
    ensures CutRecord(left + right, |left|) == Ok(line)
    ensures FirstLine((left + right + after)[|left|..]) == line
  {
    hide IndexByte, CutRecord, FirstLine, HasLine;
    DropLeft(left, right);
    CutAt(left + right, |left|, right, line);
    ConcatAssociative(left, right, after);
    DropLeft(left, right + after);
    FirstLineOfConcat(right, after);
  }

  /** The line a chunk's event was parsed from, as the tool-output handler cuts it and as the archive holds it. */
  lemma EventLine(d: Decoder, plain: Bytes, base: nat, session: string, i: nat, after: Bytes) returns (line: Bytes)
    requires ParseChunkResult(d, plain, base, session).Ok?
    requires i < |ParseChunkResult(d, plain, base, session).value.events|
    ensures var e := ParseChunkResult(d, plain, base, session).value.events[i];
      && base <= e.at < base + |plain|
      && CutRecord(plain, e.at - base) == Ok(line)
      && FirstLine((plain + after)[e.at - base..]) == line
      && d.decode(line).Some?
      && ExtractEvent(d.decode(line).value, e.at) == Ok(Some(e))
  {
    hide ParseRecord, IndexByte, LinesOf, Flat, CutRecord;
    var lines := LinesOf(plain);
    LinesOfAreLines(plain);
    FlatOfAligned(plain);
    var n := EventSource(d, lines, base, session, i);
    line := lines[n];
    CutIsLine(lines, n, after);
  }

  /** The query behind the handler returns the chunk the event was parsed from. */
  lemma OutputChunk(env: Env, ring: Keyring, db: Db, k: Key, i: nat) returns (c: ChunkRow)
    requires Coherent(env.decoder) && KeyOk(env, ring, db, k)
    requires i < |ViewOf(env, ring, db, k).index| && ViewOf(env, ring, db, k).index[i].event.kind == ToolOutputKind
    ensures var x, archive := ViewOf(env, ring, db, k).index[i], ArchiveOf(env, ring, db, k);
      && LocateOutput(db.events, db.chunks, k, x.event.at) == Some(c)
      && Located(env, ring, k.session, c, x)
      && Open(env.cipher, ring, c.keyId, c.ciphertext) == Some(PlainOf(env, ring, c))
      && c.start < c.end <= |archive| && archive[c.start..c.end] == PlainOf(env, ring, c)
  {
    hide ReplayRows, RowOk, FindChunk, LocateOutput, PlainOf, Open, Tiles, ParseChunkResult, ChunksOf, IndexedOf;
    var v, rows := ViewOf(env, ring, db, k), ChunksOf(db.chunks, k);
    ReplayTiles(env, ring, k.session, rows);
    var n := ReplayLocates(env, ring, k.session, rows, i);
    c := rows[n];
    FindTile(env, ring, db, k, n);
    LocateStored(env, ring, db, k, i);
    OpensReplayed(env, ring, k.session, rows, n);
    TileSpans(env, ring, rows, v.archive, n);
  }

  /** What the handler answers with a recorded output: all of it, or its longest valid start of 256 KiB, flagged. */
  function OutputPage(output: Bytes): OutputReply {
    if |output| <= 262_144 then OutputReply(output, false) else OutputReply(Utf8.Truncate(output, 262_144), true)
  }

  /**
   * Locators are always valid: for every stored tool output the handler finds the one chunk that holds it,
   * decrypts it and cuts out exactly the archived record at that byte, line `n` of the archive, from which the
   * event was extracted. It answers with the output recorded there exactly when the record also reads as a tool
   * output with its output field, and else refuses it.
   */
  lemma ToolOutputReadsBack(env: Env, ring: Keyring, db: Db, k: Key, i: nat) returns (n: nat)
    requires Coherent(env.decoder) && KeyOk(env, ring, db, k)
    requires i < |EventsOf(db, k)| && EventsOf(db, k)[i].kind == ToolOutputKind
    ensures var at, records := EventsOf(db, k)[i].at, LinesOf(ArchiveOf(env, ring, db, k));
      && n < |records| && at == |Flat(records[..n])|
      && at < |ArchiveOf(env, ring, db, k)| && FirstLine(ArchiveOf(env, ring, db, k)[at..]) == records[n]
      && var r := env.decoder.decode(records[n]);
      && r.Some? && ExtractEvent(r.value, at) == Ok(Some(EventsOf(db, k)[i]))
      && ToolOutputReply(env, ring, db, k, at)
         == (if ReadsAsOutput(r.value) then Ok(OutputPage(OutputText(r.value.output.value.output)))
             else Err(NotToolOutput))
      && Describes(r.value, at, EventsOf(db, k)[i])
      && (ToolOutputReply(env, ring, db, k, at).Ok? <==>
            r.value.output.Some? && r.value.output.value.outputType in {CustomToolCallOutput, FunctionCallOutput})
      && (ReadsAsOutput(r.value) ==> Answers(r.value.output.value.output, ToolOutputReply(env, ring, db, k, at)))
      && (ViewsAgree(r.value) ==> ReadsAsOutput(r.value))
  {
    hide KeyOk, ReplayRows, Located, LocateOutput, ToolOutput, FirstLine, CutRecord, EventsOf, Decrypt, Utf8.Truncate;
    hide ReadsAsOutput, ViewsAgree, OutputText;
    var v := ViewOf(env, ring, db, k);
    EventsAreOneParse(env, ring, db, k);
    IndexMatchesEvents(env, ring, db, k);
    assert v.index[i].event == EventsOf(db, k)[i];
    var c := OutputChunk(env, ring, db, k, i);
    ReadBackFromTile(env, ring, c, k, v.index[i], v.archive);
    n := EventRecord(env, ring, db, k, i);
    var r := env.decoder.decode(LinesOf(ArchiveOf(env, ring, db, k))[n]).value;
    ExtractDescribes(r, EventsOf(db, k)[i].at, EventsOf(db, k)[i]);
    AnsweredOutput(r);
    hide OutputPage;
  }

  /** The answer to a string output is a page of its text, to any other a page of its JSON. */
  predicate Answers(output: OutputField, reply: Result<OutputReply, OutputError>) {
    match output
    case JsonString(text) => reply == Ok(OutputPage(text))
    case OtherJson(raw) => reply == Ok(OutputPage(raw))
  }

  lemma AnsweredOutput(r: Record)
    ensures ReadsAsOutput(r)
       <==> r.output.Some? && r.output.value.outputType in {CustomToolCallOutput, FunctionCallOutput}
    ensures ReadsAsOutput(r) ==> Answers(r.output.value.output, Ok(OutputPage(OutputText(r.output.value.output))))
  {
    hide OutputPage;
  }

  /** The archive record an event was extracted from starts at the event's position. */
  lemma EventRecord(env: Env, ring: Keyring, db: Db, k: Key, i: nat) returns (n: nat)
    requires Coherent(env.decoder) && KeyOk(env, ring, db, k) && i < |EventsOf(db, k)|
    ensures var at, archive := EventsOf(db, k)[i].at, ArchiveOf(env, ring, db, k);
      && at < |archive|
      && n < |LinesOf(archive)| && at == |Flat(LinesOf(archive)[..n])|
      && FirstLine(archive[at..]) == LinesOf(archive)[n]
      && env.decoder.decode(LinesOf(archive)[n]).Some?
      && ExtractEvent(env.decoder.decode(LinesOf(archive)[n]).value, at) == Ok(Some(EventsOf(db, k)[i]))
  {
    hide KeyOk, ReplayRows, EventsOf, FirstLine, Flat, LinesOf, ParseLines, IndexByte, ExtractEvent, CutRecord;
    EventsAreOneParse(env, ring, db, k);
    if k !in db.sessions { UnknownIsEmpty(env, ring, db, k); }
    IndexIsOneParse(env, ring, db, k);
    var archive := ArchiveOf(env, ring, db, k);
    var lines := LinesOf(archive);
    n := EventSource(env.decoder, lines, 0, k.session, i);
    LinesOfAreLines(archive);
    FlatOfAligned(archive);
    CutIsLine(lines, n, []);
    ConcatUnit(archive);
    LineIsTerminated(lines[n]);
  }

  lemma IndexMatchesEvents(env: Env, ring: Keyring, db: Db, k: Key)
    requires KeyOk(env, ring, db, k)
    ensures var v := ViewOf(env, ring, db, k);
      |v.index| == |v.parsed.events| && forall i :: 0 <= i < |v.index| ==> v.index[i].event == v.parsed.events[i]
  {
    hide ReplayRows;
    var v := ViewOf(env, ring, db, k);
    ReplayIndexEvents(env, ring, k.session, ChunksOf(db.chunks, k));
    assert forall i :: 0 <= i < |v.index| ==> EventsIn(v.index)[i] == v.index[i].event;
  }

  lemma LocateStored(env: Env, ring: Keyring, db: Db, k: Key, i: nat)
    requires Coherent(env.decoder) && KeyOk(env, ring, db, k) && i < |ViewOf(env, ring, db, k).index|
    ensures var x := ViewOf(env, ring, db, k).index[i];
      LocateOutput(db.events, db.chunks, k, x.event.at)
      == if x.event.kind == ToolOutputKind then FindChunk(db.chunks, k, x.chunkStart) else None
  {
    hide ReplayRows, RowOk, FindChunk, LocateOutput;
    var v := ViewOf(env, ring, db, k);
    ReplayIndexEvents(env, ring, k.session, ChunksOf(db.chunks, k));
    ReplayPositions(env, ring, k.session, ChunksOf(db.chunks, k));
    forall j | 0 <= j < |v.index| && j != i
      ensures v.index[j].event.at != v.index[i].event.at
    {
      assert EventsIn(v.index)[j] == v.index[j].event && EventsIn(v.index)[i] == v.index[i].event;
    }
    LocateFinds(db.events, db.chunks, k, i);
  }

  /** Every chunk of a replayable archive decrypts. */
  lemma {:induction false} OpensReplayed(env: Env, ring: Keyring, session: string, rows: seq<ChunkRow>, n: nat)
    requires ReplayRows(env, ring, session, rows).Some? && n < |rows|
    ensures Open(env.cipher, ring, rows[n].keyId, rows[n].ciphertext) == Some(PlainOf(env, ring, rows[n]))
  {
    hide AddPlain, Decrypt;
    if n < |rows| - 1 { OpensReplayed(env, ring, session, rows[..|rows| - 1], n); }
  }

  lemma ReadBackFromTile(env: Env, ring: Keyring, c: ChunkRow, k: Key, x: Indexed, archive: Bytes)
    requires Located(env, ring, k.session, c, x) && x.event.kind == ToolOutputKind
    requires Open(env.cipher, ring, c.keyId, c.ciphertext) == Some(PlainOf(env, ring, c))
    requires c.start < c.end <= |archive| && archive[c.start..c.end] == PlainOf(env, ring, c)
    ensures c.start <= x.event.at < |archive|
    ensures var line := FirstLine(archive[x.event.at..]);
      && CutRecord(PlainOf(env, ring, c), x.event.at - c.start) == Ok(line)
      && env.decoder.decode(line).Some?
      && var r := env.decoder.decode(line).value;
      && ToolOutput(env.decoder, line)
         == (if ReadsAsOutput(r) then Some(OutputText(r.output.value.output)) else None)
      && (ViewsAgree(r) ==> ReadsAsOutput(r))
  {
    hide ParseChunkResult, CutRecord, IndexByte;
    var plain, at := PlainOf(env, ring, c), x.event.at;
    var events := ParseChunkResult(env.decoder, plain, c.start, k.session).value.events;
    var j: nat :| j < |events| && events[j] == x.event;
    var line := EventLine(env.decoder, plain, c.start, k.session, j, archive[c.end..]);
    assert (plain + archive[c.end..])[at - c.start..] == archive[at..];
    ToolOutputAccepts(env.decoder, line, x.event);
  }

  lemma IndexIsStored(env: Env, ring: Keyring, db: Db, k: Key)
    requires KeyOk(env, ring, db, k)
    ensures IndexedOf(db.events, k) == ViewOf(env, ring, db, k).index
  {
  }

  /** And only those: at any other position the handler answers that there is nothing. */
  lemma OtherPositionsAreNotFound(env: Env, ring: Keyring, db: Db, k: Key, at: nat)
    requires Coherent(env.decoder) && KeyOk(env, ring, db, k)
    requires forall i :: 0 <= i < |EventsOf(db, k)| ==>
      EventsOf(db, k)[i].at != at || EventsOf(db, k)[i].kind != ToolOutputKind
    ensures ToolOutputReply(env, ring, db, k, at) == Err(OutputNotFound)
  {
    hide ReplayRows, RowOk, LocateOutput, FindChunk, EventsOf, ParseLines, IndexedOf, ChunksOf, Decrypt, ToolOutput;
    var v := ViewOf(env, ring, db, k);
    EventsAreOneParse(env, ring, db, k);
    IndexMatchesEvents(env, ring, db, k);
    IndexIsStored(env, ring, db, k);
    hide KeyOk, ViewOf;
    if i :| 0 <= i < |v.index| && v.index[i].event.at == at {
      assert v.index[i].event == EventsOf(db, k)[i];
      LocateStored(env, ring, db, k, i);
    } else {
      LocateMisses(db.events, db.chunks, k, at);
    }
  }

  // Refusals, in any state of the tables.

  /** Chunk `c` of the session is why the output recorded at `at` is not returned. */
  ghost predicate Blocks(env: Env, ring: Keyring, c: ChunkRow, k: Key, at: nat, e: OutputError) {
    var found := Open(env.cipher, ring, c.keyId, c.ciphertext);
    && c.key == k
    && match e
       case InvalidSequence => false
       case OutputNotFound => false
       case MissingKey => c.keyId !in ring
       case Unreadable => c.keyId in ring && found.None?
       case BadLocator => found.Some? && !(c.start <= at < c.start + |found.value|)
       case IncompleteEvent => found.Some? && RestUnended(found.value, at - c.start)
       case NotToolOutput => found.Some? && NoOutputAt(env, found.value, at - c.start)
  }

  predicate RestUnended(plain: Bytes, relative: int) {
    0 <= relative < |plain| && forall i :: relative <= i < |plain| ==> plain[i] != NEWLINE
  }

  predicate NoOutputAt(env: Env, plain: Bytes, relative: int) {
    0 <= relative < |plain| && HasLine(plain[relative..]) && ToolOutput(env.decoder, FirstLine(plain[relative..])).None?
  }

  /** Each refusal of a tool output names a true reason: the position, or a chunk of the session. */
  lemma OutputRefusalsAreExplained(env: Env, ring: Keyring, db: Db, k: Key, at: int)
    ensures var reply := ToolOutputReply(env, ring, db, k, at);
      reply.Err? ==>
        match reply.error
        case InvalidSequence => at < 0
        case OutputNotFound => at >= 0 && LocateOutput(db.events, db.chunks, k, at).None?
        case e => at >= 0 && exists i :: 0 <= i < |db.chunks| && Blocks(env, ring, db.chunks[i], k, at, e)
  {
    hide ToolOutput, LocateOutput, IndexByte, Decrypt, OutputPage;
    if at >= 0 {
      var found := LocateOutput(db.events, db.chunks, k, at);
      if found.Some? {
        var i := LocatedIsStored(db.events, db.chunks, k, at);
        var plain := Open(env.cipher, ring, found.value.keyId, found.value.ciphertext);
        if plain.Some? { CutFails(plain.value, at - found.value.start); }
      }
    }
  }

  lemma CutFails(plain: Bytes, relative: int)
    ensures CutRecord(plain, relative) == Err(IncompleteEvent) ==> RestUnended(plain, relative)
    ensures CutRecord(plain, relative) == Err(BadLocator) ==> !(0 <= relative < |plain|)
    ensures CutRecord(plain, relative).Ok? ==>
      && 0 <= relative < |plain| && HasLine(plain[relative..])
      && CutRecord(plain, relative).value == FirstLine(plain[relative..])
  {
    hide IndexByte;
    if 0 <= relative < |plain| {
      IndexByteFinds(plain[relative..], NEWLINE);
      assert forall i :: relative <= i < |plain| ==> plain[i] == plain[relative..][i - relative];
    }
  }

  lemma {:induction false} LocatedIsStored(rows: seq<EventRow>, chunks: seq<ChunkRow>, k: Key, at: nat) returns (i: nat)
    requires LocateOutput(rows, chunks, k, at).Some?
    ensures i < |chunks| && chunks[i] == LocateOutput(rows, chunks, k, at).value && chunks[i].key == k
  {
    hide FindChunk;
    var last := rows[|rows| - 1];
    if last.key == k && last.event.at == at && last.event.kind == ToolOutputKind {
      FindChunkMiss(chunks, k, last.chunkStart);
      i :| 0 <= i < |chunks| && chunks[i] == FindChunk(chunks, k, last.chunkStart).value;
    } else {
      i := LocatedIsStored(rows[..|rows| - 1], chunks, k, at);
    }
  }
}
