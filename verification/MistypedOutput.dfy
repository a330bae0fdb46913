/** A tool output that is indexed but cannot be read back: the two ways of decoding a record disagree on it. */
module MistypedOutput {
  import opened Basics
  import opened Chunker
  import opened Convergence
  import opened Demo
  import opened Invariant
  import opened Lines
  import opened Locators
  import opened Queries
  import opened Records
  import opened Server
  import opened Store
  import opened Syncer
  import opened Tables
  import opened Vault

  /** An opening record without an event, and a record that is indexed as a tool output but does not read as one. */
  ghost predicate Mistyped(link: Link, session: string, opening: Bytes, line: Bytes) {
    var d := link.env.decoder;
    && link.env.safeId(session)
    && IsLine(opening) && IsLine(line) && |opening| + |line| <= TARGET_CHUNK
    && ParseRecord(d, opening, 0, session).Ok? && ParseRecord(d, opening, 0, session).value.events == []
    && d.decode(line).Some?
    && var r := d.decode(line).value;
    && r.recordType == ResponseItem && r.item.Some? && IsToolOutput(r.item.value.itemType) && !ReadsAsOutput(r)
  }

  lemma MistypedParses(link: Link, session: string, opening: Bytes, line: Bytes)
    requires Mistyped(link, session, opening, line)
    ensures var r := link.env.decoder.decode(line).value;
      var parsed := ParseChunkResult(link.env.decoder, opening + line, 0, session);
      && GoodChunk(opening + line) && parsed.Ok?
      && parsed.value.events
         == [Event(|opening|, ToolOutputKind, r.timestamp, [], [], [], r.item.value.status)]
    ensures FirstLine((opening + line)[|opening|..]) == line
  {
    hide IndexByte, Later, ParseSessionMeta;
    var d := link.env.decoder;
    LineIsTerminated(opening);
    LineIsTerminated(line);
    TwoLines(opening, line);
    assert [opening, line][1..] == [line] && [line][1..] == [];
    assert ParseRecord(d, line, |opening|, session).Ok?;
    assert ParseLines(d, [], |opening| + |line|, session) == Ok(NOTHING);
    assert ParseLines(d, [line], |opening|, session).Ok?;
  }

  lemma TwoLines(a: Bytes, b: Bytes)
    requires IsLine(a) && IsLine(b)
    ensures LinesOf(a + b) == [a, b] && Terminated(a + b) && (a + b)[|a|..] == b
  {
    hide IndexByte;
    LineIsTerminated(b);
    FlatUpToTwo(a, b);
    assert AreLines([a, b]);
    LinesInText([a, b], []) by { assert !HasLine([]); }
    ConcatUnit(a + b);
    DropLeft(a, b);
    assert (a + b)[|a + b| - 1] == b[|b| - 1];
  }

  /** After its upload the output is indexed, and asking for it is refused. */
  ghost predicate IndexedButRefused(link: Link, session: string, opening: Bytes, line: Bytes) {
    var k, q := KeyIn(link, session), FirstRequest(link, session, opening + line);
    var db := Upload(link.env, link.ring, EMPTY_DB, q).db;
    && Inv(link.env, link.ring, db)
    && |EventsOf(db, k)| == 1 && EventsOf(db, k)[0].at == |opening| && EventsOf(db, k)[0].kind == ToolOutputKind
    && ToolOutputReply(link.env, link.ring, db, k, |opening|) == Err(NotToolOutput)
  }

  lemma MistypedIsRefused(link: Link, session: string, opening: Bytes, line: Bytes)
    requires Working(link) && Mistyped(link, session, opening, line)
    ensures IndexedButRefused(link, session, opening, line)
  {
    hide Working, KeyOk, TablesOk, SessionIdsOk, ParseChunkResult, GoodChunk, ArchiveOf, EventsOf, Upload;
    hide ToolOutputReply, Ready, FirstLine, IsLine, ParseRecord, ReadsAsOutput;
    var env, ring, k, text := link.env, link.ring, KeyIn(link, session), opening + line;
    MistypedParses(link, session, opening, line);
    EmptyDbInv(env, ring);
    FirstUpload(link, EMPTY_DB, session, text);
    var db := Upload(env, ring, EMPTY_DB, FirstRequest(link, session, text)).db;
    InvOfKey(env, ring, db, k);
    ArchiveIsAligned(env, ring, db, k);
    GoodFits(text);
    IsWorking(link);
    IndexIsOneParse(env, ring, db, k);
    var n := ToolOutputReadsBack(env, ring, db, k, 0);
  }

  // A concrete instance: the last payload of the line alone is a tool output, while both payloads merged, as decoding
  // with the output field does, have a type error.

  const OPENING_TEXT := "{\"type\":\"session_meta\"," + "\"payload\":{\"id\":\"s\"}}"
  const MISTYPED_TEXT :=
    "{\"type\":\"response_item\"," + "\"payload\":{\"type\":1}," + "\"payload\":{\"type\":"
    + "\"function_call_output\"," + "\"output\":\"x\"}}"

  const OPENING := Ascii(OPENING_TEXT) + [NEWLINE]
  const MISTYPED := Ascii(MISTYPED_TEXT) + [NEWLINE]

  const MISTYPED_RECORD := Record(
    [], ResponseItem, Some(MessageView(OtherMessage("function_call_output"), [], [])),
    Some(ItemView(FunctionCallOutput, [], [])), None, None)

  const MISTYPED_LINK := DemoLink(
    Decoder((line: Bytes) => if line == MISTYPED then Some(MISTYPED_RECORD) else Some(DEMO_META), (id: string) => true))

  predicate Printable(text: string) {
    forall i :: 0 <= i < |text| ==> ' ' <= text[i] <= '~'
  }

  /** Text without a newline, and a newline. */
  lemma TextIsLine(text: string)
    requires Printable(text)
    ensures IsLine(Ascii(text) + [NEWLINE])
  {
    var line := Ascii(text) + [NEWLINE];
    IndexByteFinds(line, NEWLINE);
    assert line[|text|] == NEWLINE;
    assert forall i :: 0 <= i < |text| ==> line[i] == Ascii(text)[i] != NEWLINE;
  }

  lemma PrintableConcat(a: string, b: string)
    requires Printable(a) && Printable(b)
    ensures Printable(a + b)
  {
  }

  lemma TextsArePrintable()
    ensures Printable(OPENING_TEXT) && Printable(MISTYPED_TEXT)
  {
    var type1, meta := "{\"type\":\"response_item\",", "{\"type\":\"session_meta\",";
    var first, second := "\"payload\":{\"type\":1},", "\"payload\":{\"type\":";
    var kind, output, id := "\"function_call_output\",", "\"output\":\"x\"}}", "\"payload\":{\"id\":\"s\"}}";
    assert Printable(type1) && Printable(meta) && Printable(first) && Printable(second);
    assert Printable(kind) && Printable(output) && Printable(id);
    hide Printable;
    PrintableConcat(meta, id);
    PrintableConcat(type1, first);
    PrintableConcat(type1 + first, second);
    PrintableConcat(type1 + first + second, kind);
    PrintableConcat(type1 + first + second + kind, output);
  }

  lemma OpeningParses()
    ensures ParseRecord(MISTYPED_LINK.env.decoder, OPENING, 0, "s") == Ok(Parsed(
      Some(Metadata("s", [], [], [], [], [], [], [])), [], []))
  {
    assert |OPENING| != |MISTYPED|;
  }

  lemma MistypedExample()
    ensures IndexedButRefused(MISTYPED_LINK, "s", OPENING, MISTYPED)
  {
    hide Working, IndexedButRefused, IsLine, ParseRecord, Printable;
    DemoWorks(MISTYPED_LINK.env.decoder);
    TextsArePrintable();
    TextIsLine(OPENING_TEXT);
    TextIsLine(MISTYPED_TEXT);
    OpeningParses();
    MistypedIsRefused(MISTYPED_LINK, "s", OPENING, MISTYPED);
  }
}
