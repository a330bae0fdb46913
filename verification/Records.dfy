/** Codex JSONL records: what a line means, and how a chunk of lines is parsed into an index. */
module Records {
  import opened Basics
  import opened Lines
  import Utf8

  datatype Metadata = Metadata(
    sessionId: string, startedAt: Bytes, cwd: Bytes, forkedFromId: Bytes, source: Bytes,
    repositoryUrl: Bytes, gitBranch: Bytes, gitCommitHash: Bytes)

  /** The `type` strings the code tests for. Each name stands for the string it spells in snake case. */
  datatype RecordType = EventMsg | ResponseItem | SessionMeta | OtherRecord(name: string)
  datatype MessageType = UserMessage | AgentMessage | OtherMessage(name: string)
  datatype ItemType =
    | CustomToolCall | FunctionCall | CustomToolCallOutput | FunctionCallOutput | OtherItem(name: string)

  datatype EventKind = UserKind | AgentKind | ToolCallKind | ToolOutputKind

  datatype Event = Event(
    at: nat, kind: EventKind, occurredAt: Bytes, phase: Bytes, text: Bytes, toolName: Bytes, toolStatus: Bytes)

  datatype Parsed = Parsed(metadata: Option<Metadata>, events: seq<Event>, lastActivity: Bytes)

  datatype ParseError =
    | NotLineBoundary
    | InvalidJson(at: nat)
    | InvalidMeta(what: MetaError)
    | WrongSession(found: string)
    | InvalidEvent(at: nat)

  datatype MetaError = UnreadableMeta | NotSessionMeta | NoSessionId

  /** The typed views that JSON decoding gives of one line. A view is `None` when decoding into it fails. */
  datatype Record = Record(
    timestamp: Bytes,
    recordType: RecordType,
    message: Option<MessageView>,
    item: Option<ItemView>,
    output: Option<OutputView>,
    meta: Option<MetaView>)

  datatype MessageView = MessageView(messageType: MessageType, message: Bytes, phase: Bytes)
  datatype ItemView = ItemView(itemType: ItemType, name: Bytes, status: Bytes)
  datatype OutputView = OutputView(outputType: ItemType, output: OutputField)
  datatype OutputField = JsonString(text: Bytes) | OtherJson(raw: Bytes)
  datatype MetaView = MetaView(
    id: string, sessionId: string, timestamp: Bytes, cwd: Bytes, forkedFromId: Bytes, source: Bytes,
    git: Option<GitView>)
  datatype GitView = GitView(repositoryUrl: Bytes, branch: Bytes, commitHash: Bytes)

  /** JSON decoding and the UUID pattern, neither of which is interpreted here. */
  datatype Decoder = Decoder(decode: Bytes -> Option<Record>, matchesUuid: string -> bool)

  /** What JSON decoding promises of every line: decoded message text is valid UTF-8. */
  ghost predicate Coherent(d: Decoder) {
    forall line: Bytes :: d.decode(line).Some? && d.decode(line).value.message.Some? ==>
      Utf8.Valid(d.decode(line).value.message.value.message)
  }

  function ParseSessionMeta(d: Decoder, r: Record): Result<Metadata, MetaError> {
    if r.meta.None? then Err(UnreadableMeta)
    else if r.recordType != SessionMeta then Err(NotSessionMeta)
    else
      var m := r.meta.value;
      var id := if m.id == "" then m.sessionId else m.id;
      if !d.matchesUuid(id) then Err(NoSessionId)
      else
        var git := if m.git.Some? then m.git.value else GitView([], [], []);
        Ok(Metadata(id, m.timestamp, m.cwd, m.forkedFromId, m.source, git.repositoryUrl, git.branch, git.commitHash))
  }

  predicate IsToolCall(itemType: ItemType) {
    itemType == CustomToolCall || itemType == FunctionCall
  }

  predicate IsToolOutput(itemType: ItemType) {
    itemType == CustomToolCallOutput || itemType == FunctionCallOutput
  }

  /** The index entry of a record at byte `at`; `Err` when its payload does not decode. */
  function ExtractEvent(r: Record, at: nat): Result<Option<Event>, ParseError> {
    if r.recordType == EventMsg then
      if r.message.None? then Err(InvalidEvent(at))
      else
        var m := r.message.value;
        match m.messageType
        case UserMessage => Ok(Some(Event(at, UserKind, r.timestamp, m.phase, m.message, [], [])))
        case AgentMessage => Ok(Some(Event(at, AgentKind, r.timestamp, m.phase, m.message, [], [])))
        case OtherMessage(_) => Ok(None)
    else if r.recordType != ResponseItem then Ok(None)
    else if r.item.None? then Err(InvalidEvent(at))
    else
      var i := r.item.value;
      if IsToolCall(i.itemType) then Ok(Some(Event(at, ToolCallKind, r.timestamp, [], [], i.name, i.status)))
      else if IsToolOutput(i.itemType) then Ok(Some(Event(at, ToolOutputKind, r.timestamp, [], [], [], i.status)))
      else Ok(None)
  }

  /** The complete output recorded on a line; `None` when the line is not a tool output. */
  function ToolOutput(d: Decoder, line: Bytes): Option<Bytes> {
    match d.decode(line)
    case None => None
    case Some(r) =>
      if r.output.None? || r.recordType != ResponseItem || !IsToolOutput(r.output.value.outputType) then None
      else Some(OutputText(r.output.value.output))
  }

  /** A string output is its text, any other its JSON. */
  function OutputText(output: OutputField): Bytes {
    match output
    case JsonString(text) => text
    case OtherJson(raw) => raw
  }

  /** The metadata a record at byte `at` contributes: the first record of a session, and no other, is checked. */
  function MetadataAt(d: Decoder, r: Record, at: nat, sessionId: string): Result<Option<Metadata>, ParseError> {
    if at != 0 then Ok(None)
    else match ParseSessionMeta(d, r)
      case Err(e) => Err(InvalidMeta(e))
      case Ok(meta) => if meta.sessionId != sessionId then Err(WrongSession(meta.sessionId)) else Ok(Some(meta))
  }

  /** What one line at byte `at` of the session contributes to the index. */
  function ParseRecord(d: Decoder, line: Bytes, at: nat, sessionId: string): Result<Parsed, ParseError> {
    match d.decode(line)
    case None => Err(InvalidJson(at))
    case Some(r) =>
      match MetadataAt(d, r, at, sessionId)
      case Err(e) => Err(e)
      case Ok(meta) =>
        match ExtractEvent(r, at)
        case Err(e) => Err(e)
        case Ok(None) => Ok(Parsed(meta, [], r.timestamp))
        case Ok(Some(event)) => Ok(Parsed(meta, [event], r.timestamp))
  }

  const NOTHING := Parsed(None, [], [])

  /** Two consecutive stretches of a session, parsed separately and put together; the first failure wins. */
  function Combine(a: Result<Parsed, ParseError>, b: Result<Parsed, ParseError>): Result<Parsed, ParseError> {
    match a
    case Err(e) => Err(e)
    case Ok(p) =>
      match b
      case Err(e) => Err(e)
      case Ok(q) => Ok(Join(p, q))
  }

  function Join(p: Parsed, q: Parsed): Parsed {
    Parsed(if p.metadata.Some? then p.metadata else q.metadata,
           p.events + q.events, Later(p.lastActivity, q.lastActivity))
  }

  /** The index of consecutive lines, the first of which is at byte `base` of the session. */
  function ParseLines(d: Decoder, lines: seq<Bytes>, base: nat, sessionId: string): Result<Parsed, ParseError> {
    if lines == [] then Ok(NOTHING)
    else Combine(ParseRecord(d, lines[0], base, sessionId),
                 ParseLines(d, lines[1..], base + |lines[0]|, sessionId))
  }

  /** The result of parsing one uploaded chunk. */
  function ParseChunkResult(d: Decoder, plain: Bytes, base: nat, sessionId: string): Result<Parsed, ParseError> {
    if !Terminated(plain) then Err(NotLineBoundary) else ParseLines(d, LinesOf(plain), base, sessionId)
  }

  lemma JoinMonoid(p: Parsed, q: Parsed, r: Parsed)
    ensures Join(Join(p, q), r) == Join(p, Join(q, r))
    ensures Join(NOTHING, p) == p == Join(p, NOTHING)
  {
    LaterMonoid(p.lastActivity, q.lastActivity, r.lastActivity);
    assert p.events + q.events + r.events == p.events + (q.events + r.events);
    assert [] + p.events == p.events == p.events + [];
  }

  lemma CombineUnit(a: Result<Parsed, ParseError>)
    ensures Combine(Ok(NOTHING), a) == a == Combine(a, Ok(NOTHING))
  {
    if a.Ok? {
      JoinMonoid(a.value, a.value, a.value);
    }
  }

  lemma CombineAssociative(a: Result<Parsed, ParseError>, b: Result<Parsed, ParseError>, c: Result<Parsed, ParseError>)
    ensures Combine(Combine(a, b), c) == Combine(a, Combine(b, c))
  {
    if a.Ok? && b.Ok? && c.Ok? {
      JoinMonoid(a.value, b.value, c.value);
    }
  }

  /** Parsing composes over any split of the lines, failures and their positions included. */
  lemma {:induction false} ParseLinesCompose(d: Decoder, a: seq<Bytes>, b: seq<Bytes>, base: nat, sessionId: string)
    ensures ParseLines(d, a + b, base, sessionId)
         == Combine(ParseLines(d, a, base, sessionId), ParseLines(d, b, base + |Flat(a)|, sessionId))
  {
    hide ParseRecord, Join;
    var tail := ParseLines(d, b, base + |Flat(a)|, sessionId);
    if a == [] {
      assert a + b == b;
      CombineUnit(tail);
    } else {
      assert (a + b)[1..] == a[1..] + b;
      ParseLinesCompose(d, a[1..], b, base + |a[0]|, sessionId);
      CombineAssociative(ParseRecord(d, a[0], base, sessionId),
                         ParseLines(d, a[1..], base + |a[0]|, sessionId), tail);
    }
  }

  /**
   * The chunk parser composes over any split at a line boundary: an index built chunk by chunk is the
   * index of the whole text, and it fails exactly where the whole would.
   */
  lemma ParseChunkComposes(d: Decoder, a: Bytes, b: Bytes, base: nat, sessionId: string)
    requires Terminated(a) && Terminated(b)
    ensures ParseChunkResult(d, a + b, base, sessionId)
         == Combine(ParseChunkResult(d, a, base, sessionId), ParseChunkResult(d, b, base + |a|, sessionId))
  {
    hide ParseLines, LinesOf, Flat;
    LinesOfConcat(a, b);
    FlatOfAligned(a);
    ParseLinesCompose(d, LinesOf(a), LinesOf(b), base, sessionId);
    assert (a + b)[|a + b| - 1] == b[|b| - 1];
  }

  lemma ParseNothing(d: Decoder, result: Parsed, at: nat, sessionId: string)
    ensures Combine(Ok(result), ParseLines(d, [], at, sessionId)) == Ok(result)
  {
    CombineUnit(Ok(result));
  }

  /** One turn of the loop of `ParseChunk`, as an equation. */
  lemma Regroup(d: Decoder, result: Parsed, rest: seq<Bytes>, at: nat, sessionId: string)
    requires rest != []
    ensures Combine(Ok(result), ParseLines(d, rest, at, sessionId))
         == Combine(Combine(Ok(result), ParseRecord(d, rest[0], at, sessionId)),
                    ParseLines(d, rest[1..], at + |rest[0]|, sessionId))
  {
    CombineAssociative(Ok(result), ParseRecord(d, rest[0], at, sessionId),
                       ParseLines(d, rest[1..], at + |rest[0]|, sessionId));
  }

  /** The body of the loop of `ParseChunk`: the line at `offset` of a chunk at `base`, added to a result. */
  method AddLine(d: Decoder, line: Bytes, base: nat, offset: nat, lineIndex: nat, sessionId: string, before: Parsed)
    returns (r: Result<Parsed, ParseError>)
    requires offset == 0 <==> lineIndex == 0
    requires offset == 0 ==> before.metadata.None?
    ensures r == Combine(Ok(before), ParseRecord(d, line, base + offset, sessionId))
  {
    var envelope := d.decode(line);
    if envelope.None? {
      return Err(InvalidJson(base + offset));
    }
    var record := envelope.value;
    var result := before;
    if Before(result.lastActivity, record.timestamp) {
      result := result.(lastActivity := record.timestamp);
    }
    if base == 0 && lineIndex == 0 {
      var meta := ParseSessionMeta(d, record);
      if meta.Err? {
        return Err(InvalidMeta(meta.error));
      }
      if meta.value.sessionId != sessionId {
        return Err(WrongSession(meta.value.sessionId));
      }
      result := result.(metadata := Some(meta.value));
    }
    var event := ExtractEvent(record, base + offset);
    if event.Err? {
      return Err(event.error);
    }
    if event.value.Some? {
      result := result.(events := result.events + [event.value.value]);
    }
    ConcatUnit(before.events);
    return Ok(result);
  }

  /** `ParseChunk`: one record at a time, adding to a result. */
  method ParseChunk(d: Decoder, plain: Bytes, base: nat, sessionId: string) returns (r: Result<Parsed, ParseError>)
    ensures r == ParseChunkResult(d, plain, base, sessionId)
  {
    hide ParseRecord, Join, ParseLines, IndexByte, Flat, LinesOf, AreLines;
    if |plain| == 0 || plain[|plain| - 1] != NEWLINE {
      return Err(NotLineBoundary);
    }
    ghost var whole := ParseChunkResult(d, plain, base, sessionId);
    ghost var rest := LinesOf(plain);
    LinesOfAreLines(plain);
    FlatOfAligned(plain);
    CombineUnit(whole);
    var result := NOTHING;
    var offset, lineIndex := 0, 0;
    while offset < |plain|
      invariant 0 <= offset <= |plain| && 0 <= lineIndex
      invariant offset == 0 <==> lineIndex == 0
      invariant offset == 0 ==> result.metadata.None?
      invariant plain[offset..] == Flat(rest) && AreLines(rest)
      invariant whole == Combine(Ok(result), ParseLines(d, rest, base + offset, sessionId))
    {
      FlatEmpty(rest);
      FlatFirst(rest);
      var next := offset + IndexByte(plain[offset..], NEWLINE) + 1;
      var line := plain[offset..next];
      assert line == rest[0] && plain[next..] == Flat(rest[1..]);
      Regroup(d, result, rest, base + offset, sessionId);
      var added := AddLine(d, line, base, offset, lineIndex, sessionId, result);
      if added.Err? {
        return added;
      }
      result, rest := added.value, rest[1..];
      offset, lineIndex := next, lineIndex + 1;
    }
    FlatEmpty(rest);
    ParseNothing(d, result, base + offset, sessionId);
    return Ok(result);
  }

  /** Indexed events lie inside their stretch of text, in strictly increasing order, never at byte 0. */
  ghost predicate IndexedWithin(events: seq<Event>, base: nat, end: nat) {
    && (forall i :: 0 <= i < |events| ==> base <= events[i].at < end && 0 < events[i].at)
    && (forall i, j :: 0 <= i < j < |events| ==> events[i].at < events[j].at)
    && (forall i :: 0 <= i < |events| ==> Utf8.Valid(events[i].text))
  }

  lemma RecordIndexed(d: Decoder, line: Bytes, at: nat, sessionId: string)
    requires Coherent(d) && line != [] && ParseRecord(d, line, at, sessionId).Ok?
    ensures IndexedWithin(ParseRecord(d, line, at, sessionId).value.events, at, at + |line|)
    ensures ParseRecord(d, line, at, sessionId).value.metadata.Some? <==> at == 0
  {
    assert d.decode(line).Some?;
  }

  /**
   * Events carry the byte position of their record, strictly increasing, and none sits at 0:
   * record 0 must be session_meta, which yields no event. Cursor 0 can therefore mean "before everything".
   */
  lemma {:induction false} EventPositions(d: Decoder, lines: seq<Bytes>, base: nat, sessionId: string)
    requires Coherent(d) && AreLines(lines) && ParseLines(d, lines, base, sessionId).Ok?
    ensures IndexedWithin(ParseLines(d, lines, base, sessionId).value.events, base, base + |Flat(lines)|)
    ensures lines != [] ==> (ParseLines(d, lines, base, sessionId).value.metadata.Some? <==> base == 0)
  {
    hide ParseRecord, Later, Utf8.Valid;
    if lines != [] {
      assert IsLine(lines[0]);
      RecordIndexed(d, lines[0], base, sessionId);
      EventPositions(d, lines[1..], base + |lines[0]|, sessionId);
    }
  }

  /** Every event comes from the line at its own byte position, by the rule of `ExtractEvent`. */
  lemma {:induction false} EventSource(d: Decoder, lines: seq<Bytes>, base: nat, sessionId: string,
                                       i: nat) returns (k: nat)
    requires ParseLines(d, lines, base, sessionId).Ok?
    requires i < |ParseLines(d, lines, base, sessionId).value.events|
    ensures k < |lines| && d.decode(lines[k]).Some?
    ensures var e := ParseLines(d, lines, base, sessionId).value.events[i];
      && e.at == base + |Flat(lines[..k])|
      && ExtractEvent(d.decode(lines[k]).value, e.at) == Ok(Some(e))
  {
    var own := ParseRecord(d, lines[0], base, sessionId);
    if i < |own.value.events| {
      k := 0;
      assert lines[..0] == [];
    } else {
      var j := EventSource(d, lines[1..], base + |lines[0]|, sessionId, i - |own.value.events|);
      k := j + 1;
      assert lines[..k][1..] == lines[1..][..j];
    }
  }

  /** The record, decoded with its output field, is one `ToolOutput` accepts: the guard of its failing branch. */
  predicate ReadsAsOutput(r: Record) {
    r.output.Some? && IsToolOutput(r.output.value.outputType)
  }

  /**
   * Decoding with and without the output field sees the same `type`. A line that repeats `payload` can break
   * this: without the field the last payload counts, with it all of them are merged, errors included.
   */
  predicate ViewsAgree(r: Record) {
    r.item.Some? ==> r.output.Some? && r.output.value.outputType == r.item.value.itemType
  }

  /**
   * `ToolOutput` accepts the record of an event classified as a tool output exactly when the record also reads
   * as one with its output field; and when the two views agree, it accepts exactly the tool outputs.
   */
  lemma ToolOutputAccepts(d: Decoder, line: Bytes, e: Event)
    requires d.decode(line).Some? && ExtractEvent(d.decode(line).value, e.at) == Ok(Some(e))
    ensures var r := d.decode(line).value;
      && (e.kind == ToolOutputKind ==> (ToolOutput(d, line).Some? <==> ReadsAsOutput(r)))
      && (e.kind == ToolOutputKind && ReadsAsOutput(r) ==>
            ToolOutput(d, line) == Some(OutputText(r.output.value.output)))
      && (ViewsAgree(r) ==> (ToolOutput(d, line).Some? <==> e.kind == ToolOutputKind))
  {
    assert e.kind == ToolOutputKind || e.kind == ToolCallKind ==> d.decode(line).value.recordType == ResponseItem;
  }
}
