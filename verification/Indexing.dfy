/** What the index says about the archived records, in the records' own terms. */
module Indexing {
  import opened Basics
  import opened Invariant
  import opened Lines
  import opened Queries
  import opened Records
  import opened Store
  import opened Tables
  import opened Vault

  /** Where record `k` of a session starts, when the first of `lines` starts at `base`. */
  function PositionOf(lines: seq<Bytes>, base: nat, k: nat): nat
    requires k <= |lines|
  {
    base + |Flat(lines[..k])|
  }

  /** Event `e` is what record `r` at byte `at` is indexed as: a message, a tool call or a tool output. */
  predicate Describes(r: Record, at: nat, e: Event) {
    || (r.recordType == EventMsg && r.message.Some? && r.message.value.messageType == UserMessage
        && e == Event(at, UserKind, r.timestamp, r.message.value.phase, r.message.value.message, [], []))
    || (r.recordType == EventMsg && r.message.Some? && r.message.value.messageType == AgentMessage
        && e == Event(at, AgentKind, r.timestamp, r.message.value.phase, r.message.value.message, [], []))
    || (r.recordType == ResponseItem && r.item.Some? && r.item.value.itemType in {CustomToolCall, FunctionCall}
        && e == Event(at, ToolCallKind, r.timestamp, [], [], r.item.value.name, r.item.value.status))
    || (r.recordType == ResponseItem && r.item.Some?
        && r.item.value.itemType in {CustomToolCallOutput, FunctionCallOutput}
        && e == Event(at, ToolOutputKind, r.timestamp, [], [], [], r.item.value.status))
  }

  lemma ExtractDescribes(r: Record, at: nat, e: Event)
    ensures ExtractEvent(r, at) == Ok(Some(e)) <==> Describes(r, at, e)
  {
  }

  /** Metadata `m` is taken field by field from the first record of session `sessionId`. */
  predicate DescribesSession(d: Decoder, r: Record, sessionId: string, m: Metadata) {
    && r.recordType == SessionMeta && r.meta.Some?
    && var v := r.meta.value;
    && m.sessionId == sessionId == (if v.id != "" then v.id else v.sessionId) && d.matchesUuid(sessionId)
    && m.startedAt == v.timestamp && m.cwd == v.cwd && m.forkedFromId == v.forkedFromId && m.source == v.source
    && (v.git.Some? ==>
          && m.repositoryUrl == v.git.value.repositoryUrl
          && m.gitBranch == v.git.value.branch && m.gitCommitHash == v.git.value.commitHash)
    && (v.git.None? ==> m.repositoryUrl == m.gitBranch == m.gitCommitHash == [])
  }

  /** The line at byte `at` is a record that can be indexed. */
  ghost predicate Indexable(d: Decoder, line: Bytes, at: nat, sessionId: string) {
    && d.decode(line).Some?
    && var r := d.decode(line).value;
    && (at == 0 ==> exists m :: DescribesSession(d, r, sessionId, m))
    && (r.recordType == EventMsg ==> r.message.Some?)
    && (r.recordType == ResponseItem ==> r.item.Some?)
  }

  /** Error `e` names what is wrong with the line, and where. */
  ghost predicate Blames(d: Decoder, line: Bytes, at: nat, sessionId: string, e: ParseError) {
    match e
    case InvalidJson(p) => p == at && d.decode(line).None?
    case InvalidMeta(what) => at == 0 && d.decode(line).Some? && BlamesMeta(d, d.decode(line).value, what)
    case WrongSession(found) =>
      && at == 0 && found != sessionId && d.decode(line).Some? && NamesSession(d, d.decode(line).value)
      && exists m :: DescribesSession(d, d.decode(line).value, found, m)
    case InvalidEvent(p) =>
      && p == at && d.decode(line).Some?
      && var r := d.decode(line).value;
      && (at == 0 ==> exists m :: DescribesSession(d, r, sessionId, m))
      && ((r.recordType == EventMsg && r.message.None?) || (r.recordType == ResponseItem && r.item.None?))
    case NotLineBoundary => false
  }

  /** Why the first record does not name a session. */
  predicate BlamesMeta(d: Decoder, r: Record, what: MetaError) {
    match what
    case UnreadableMeta => r.meta.None?
    case NotSessionMeta => r.meta.Some? && r.recordType != SessionMeta
    case NoSessionId =>
      && r.meta.Some? && r.recordType == SessionMeta
      && !d.matchesUuid(if r.meta.value.id != "" then r.meta.value.id else r.meta.value.sessionId)
  }

  /** The record is a session_meta with a usable session id. */
  ghost predicate NamesSession(d: Decoder, r: Record) {
    exists id, m :: DescribesSession(d, r, id, m)
  }

  lemma SessionMetaDescribes(d: Decoder, r: Record, id: string, m: Metadata)
    ensures ParseSessionMeta(d, r) == Ok(m) && m.sessionId == id <==> DescribesSession(d, r, id, m)
  {
  }

  lemma MetaErrors(d: Decoder, r: Record)
    ensures ParseSessionMeta(d, r).Err? ==> BlamesMeta(d, r, ParseSessionMeta(d, r).error)
  {
  }

  lemma MetaParses(d: Decoder, r: Record)
    ensures ParseSessionMeta(d, r).Ok? <==> NamesSession(d, r)
    ensures ParseSessionMeta(d, r).Err? ==> BlamesMeta(d, r, ParseSessionMeta(d, r).error)
  {
    MetaErrors(d, r);
    hide ParseSessionMeta, DescribesSession, BlamesMeta;
    if ParseSessionMeta(d, r).Ok? {
      var m := ParseSessionMeta(d, r).value;
      SessionMetaDescribes(d, r, m.sessionId, m);
      assert DescribesSession(d, r, m.sessionId, m);
    }
    if NamesSession(d, r) {
      var id, m :| DescribesSession(d, r, id, m);
      SessionMetaDescribes(d, r, id, m);
    }
  }

  lemma MetaIsSession(d: Decoder, r: Record, sessionId: string)
    ensures (exists m :: DescribesSession(d, r, sessionId, m))
       <==> ParseSessionMeta(d, r).Ok? && ParseSessionMeta(d, r).value.sessionId == sessionId
  {
    hide ParseSessionMeta, DescribesSession;
    if ParseSessionMeta(d, r).Ok? && ParseSessionMeta(d, r).value.sessionId == sessionId {
      SessionMetaDescribes(d, r, sessionId, ParseSessionMeta(d, r).value);
    }
    if m :| DescribesSession(d, r, sessionId, m) {
      SessionMetaDescribes(d, r, sessionId, m);
    }
  }

  /** One record: whether it can be indexed, what of it is, and what is reported otherwise. */
  lemma RecordMeaning(d: Decoder, line: Bytes, at: nat, sessionId: string)
    ensures var p := ParseRecord(d, line, at, sessionId);
      && (p.Ok? <==> Indexable(d, line, at, sessionId))
      && (p.Err? ==> Blames(d, line, at, sessionId, p.error))
      && (p.Ok? ==>
            var r := d.decode(line).value;
            && p.value.lastActivity == r.timestamp
            && |p.value.events| <= 1
            && (forall e :: Describes(r, at, e) <==> p.value.events == [e])
            && (p.value.metadata.Some? <==> at == 0)
            && (at == 0 ==> DescribesSession(d, r, sessionId, p.value.metadata.value)))
  {
    hide ParseSessionMeta, DescribesSession, Describes, BlamesMeta;
    if d.decode(line).Some? {
      var r := d.decode(line).value;
      MetaParses(d, r);
      MetaIsSession(d, r, sessionId);
      if ParseSessionMeta(d, r).Ok? {
        var m := ParseSessionMeta(d, r).value;
        SessionMetaDescribes(d, r, m.sessionId, m);
      }
      forall e
        ensures ExtractEvent(r, at) == Ok(Some(e)) <==> Describes(r, at, e)
      {
        ExtractDescribes(r, at, e);
      }
    }
  }

  lemma PositionBehind(lines: seq<Bytes>, base: nat, k: nat, before: nat)
    requires 0 < k <= |lines| && before == k - 1
    ensures PositionOf(lines, base, k) == PositionOf(lines[1..], base + |lines[0]|, before)
    ensures k < |lines| ==> lines[1..][before] == lines[k]
    ensures PositionOf(lines, base, 0) == base
  {
    assert lines[..k] == [lines[0]] + lines[1..][..before];
    assert lines[..k][1..] == lines[1..][..before];
  }

  /** Parsing succeeds exactly when every record can be indexed; otherwise it reports the first that cannot. */
  lemma {:induction false} ParsesExactly(d: Decoder, lines: seq<Bytes>, base: nat, sessionId: string) returns (k: nat)
    ensures ParseLines(d, lines, base, sessionId).Ok? ==> k == |lines|
    ensures ParseLines(d, lines, base, sessionId).Err? ==>
      && k < |lines| && !Indexable(d, lines[k], PositionOf(lines, base, k), sessionId)
      && Blames(d, lines[k], PositionOf(lines, base, k), sessionId, ParseLines(d, lines, base, sessionId).error)
    ensures forall j: nat :: j < k <= |lines| ==> Indexable(d, lines[j], PositionOf(lines, base, j), sessionId)
    decreases |lines|
  {
    hide ParseRecord, Indexable, Blames, PositionOf;
    k := 0;
    if lines != [] {
      RecordMeaning(d, lines[0], base, sessionId);
      PositionBehind(lines, base, 1, 0);
      if ParseRecord(d, lines[0], base, sessionId).Ok? {
        var rest := ParsesExactly(d, lines[1..], base + |lines[0]|, sessionId);
        k := rest + 1;
        forall j: nat | j < k <= |lines|
          ensures Indexable(d, lines[j], PositionOf(lines, base, j), sessionId)
        {
          if j > 0 { PositionBehind(lines, base, j, j - 1); }
        }
        if k <= |lines| { PositionBehind(lines, base, k, rest); }
      }
    }
  }

  /** Every record with something to index is indexed, as what it is, at its own position. */
  lemma {:induction false} RecordIsIndexed(d: Decoder, lines: seq<Bytes>, base: nat, sessionId: string, k: nat,
                                           e: Event)
    returns (i: nat)
    requires ParseLines(d, lines, base, sessionId).Ok? && k < |lines| && d.decode(lines[k]).Some?
    requires Describes(d.decode(lines[k]).value, PositionOf(lines, base, k), e)
    ensures var events := ParseLines(d, lines, base, sessionId).value.events; i < |events| && events[i] == e
    decreases |lines|
  {
    hide ParseRecord, Describes, PositionOf;
    RecordMeaning(d, lines[0], base, sessionId);
    var own := ParseRecord(d, lines[0], base, sessionId).value.events;
    if k == 0 {
      PositionBehind(lines, base, 1, 0);
      i := 0;
    } else {
      PositionBehind(lines, base, k, k - 1);
      var j := RecordIsIndexed(d, lines[1..], base + |lines[0]|, sessionId, k - 1, e);
      i := |own| + j;
    }
  }

  /** And every event describes the record at its position. */
  lemma EventDescribes(d: Decoder, lines: seq<Bytes>, base: nat, sessionId: string, i: nat) returns (k: nat)
    requires ParseLines(d, lines, base, sessionId).Ok? && i < |ParseLines(d, lines, base, sessionId).value.events|
    ensures var e := ParseLines(d, lines, base, sessionId).value.events[i];
      && k < |lines| && d.decode(lines[k]).Some? && e.at == PositionOf(lines, base, k)
      && Describes(d.decode(lines[k]).value, e.at, e)
  {
    hide ParseLines, Describes, ExtractEvent;
    k := EventSource(d, lines, base, sessionId, i);
    var e := ParseLines(d, lines, base, sessionId).value.events[i];
    ExtractDescribes(d.decode(lines[k]).value, e.at, e);
  }

  predicate HasTime(d: Decoder, line: Bytes, time: Bytes) {
    d.decode(line).Some? && d.decode(line).value.timestamp == time
  }

  /** `latest` is the time of some record, or none has a time, and no record is later. */
  ghost predicate IsLatest(d: Decoder, lines: seq<Bytes>, latest: Bytes) {
    && (latest == [] || exists k :: 0 <= k < |lines| && HasTime(d, lines[k], latest))
    && forall k :: 0 <= k < |lines| && d.decode(lines[k]).Some? ==> !Before(latest, d.decode(lines[k]).value.timestamp)
  }

  lemma {:induction false} LastActivityIsLatest(d: Decoder, lines: seq<Bytes>, base: nat, sessionId: string)
    requires ParseLines(d, lines, base, sessionId).Ok?
    ensures IsLatest(d, lines, ParseLines(d, lines, base, sessionId).value.lastActivity)
    decreases |lines|
  {
    hide ParseRecord;
    if lines != [] {
      RecordMeaning(d, lines[0], base, sessionId);
      LastActivityIsLatest(d, lines[1..], base + |lines[0]|, sessionId);
      var own := d.decode(lines[0]).value.timestamp;
      var rest := ParseLines(d, lines[1..], base + |lines[0]|, sessionId).value.lastActivity;
      hide ParseLines;
      LatestCons(d, lines, own, rest);
    }
  }

  lemma LatestCons(d: Decoder, lines: seq<Bytes>, own: Bytes, rest: Bytes)
    requires lines != [] && d.decode(lines[0]).Some? && d.decode(lines[0]).value.timestamp == own
    requires IsLatest(d, lines[1..], rest)
    ensures IsLatest(d, lines, Later(own, rest))
  {
    var latest := Later(own, rest);
    NotLater(own, rest, own);
    forall k | 0 <= k < |lines| && d.decode(lines[k]).Some?
      ensures !Before(latest, d.decode(lines[k]).value.timestamp)
    {
      if k > 0 {
        assert lines[1..][k - 1] == lines[k];
        NotLater(own, rest, d.decode(lines[k]).value.timestamp);
      }
    }
    if latest != own && rest != [] {
      var k :| 0 <= k < |lines[1..]| && HasTime(d, lines[1..][k], rest);
      assert lines[k + 1] == lines[1..][k];
    }
  }

  lemma NotLater(a: Bytes, b: Bytes, c: Bytes)
    ensures !Before(Later(a, b), a) && !Before(Later(a, b), b)
    ensures !Before(a, c) || !Before(b, c) ==> !Before(Later(a, b), c)
  {
    BeforeTotal(a, b);
    BeforeTotal(b, c);
    BeforeTotal(a, c);
    BeforeTotal(a, a);
    BeforeTotal(b, b);
    if Before(a, b) && Before(b, c) { BeforeTransitive(a, b, c); }
    if Before(b, a) && Before(a, c) { BeforeTransitive(b, a, c); }
  }

  /** Event `e` describes the record that starts at its position. */
  ghost predicate Recorded(d: Decoder, records: seq<Bytes>, e: Event) {
    exists n: nat :: n < |records| && At(records, n, e.at) && d.decode(records[n]).Some?
      && Describes(d.decode(records[n]).value, e.at, e)
  }

  predicate At(records: seq<Bytes>, n: nat, at: nat)
    requires n < |records|
  {
    at == PositionOf(records, 0, n)
  }

  /**
   * The stored index in terms of the archived records alone. Every stored event describes the record that
   * starts at its position, and every record with something to index has its event; the stored last activity is
   * the time of the latest record, or empty; and once backfilled, the stored metadata is that of the first.
   */
  lemma IndexDescribesArchive(env: Env, ring: Keyring, db: Db, k: Key)
    requires Coherent(env.decoder) && KeyOk(env, ring, db, k) && k in db.sessions
    ensures var d, records, events := env.decoder, LinesOf(ArchiveOf(env, ring, db, k)), EventsOf(db, k);
      && records != [] && (forall n :: 0 <= n < |records| ==> d.decode(records[n]).Some?)
      && (forall i :: 0 <= i < |events| ==> Recorded(d, records, events[i]))
      && (forall n: nat, e :: n < |records| && Describes(d.decode(records[n]).value, PositionOf(records, 0, n), e) ==>
            exists i :: 0 <= i < |events| && events[i] == e)
      && IsLatest(d, records, db.sessions[k].lastActivity)
      && (db.sessions[k].metadataVersion >= 1 ==>
            DescribesSession(d, d.decode(records[0]).value, k.session, db.sessions[k].meta))
  {
    hide KeyOk, EventsOf, ParseLines, Describes, DescribesSession, IsLatest, PositionOf, LinesOf, ArchiveOf;
    var d, records := env.decoder, LinesOf(ArchiveOf(env, ring, db, k));
    IndexIsOneParse(env, ring, db, k);
    LastActivityIsLatest(d, records, 0, k.session);
    FirstIsSession(d, records, k.session);
    var last := ParsesExactly(d, records, 0, k.session);
    var events := EventsOf(db, k);
    forall i | 0 <= i < |events|
      ensures Recorded(d, records, events[i])
    {
      var n := EventDescribes(d, records, 0, k.session, i);
      assert At(records, n, events[i].at);
    }
    forall n: nat, e | n < |records| && Describes(d.decode(records[n]).value, PositionOf(records, 0, n), e)
      ensures exists i :: 0 <= i < |events| && events[i] == e
    {
      var i := RecordIsIndexed(d, records, 0, k.session, n, e);
    }
  }

  lemma FirstIsSession(d: Decoder, lines: seq<Bytes>, sessionId: string)
    requires ParseLines(d, lines, 0, sessionId).Ok?
    ensures ParseLines(d, lines, 0, sessionId).value.metadata.Some? ==> lines != []
    ensures lines != [] ==>
      var meta := ParseLines(d, lines, 0, sessionId).value.metadata;
      && d.decode(lines[0]).Some? && meta.Some?
      && DescribesSession(d, d.decode(lines[0]).value, sessionId, meta.value)
  {
    hide ParseRecord, DescribesSession, Later;
    if lines != [] { RecordMeaning(d, lines[0], 0, sessionId); }
  }
}
