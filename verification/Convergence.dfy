/** Convergence: an uncontended run over files that were only appended to brings the server up to date. */
module Convergence {
  import opened Admin
  import opened Basics
  import opened Chunker
  import opened Hashing
  import opened Invariant
  import opened Lines
  import opened Ordering
  import opened Plan
  import opened Queries
  import opened Records
  import opened Replay
  import opened Server
  import opened Store
  import opened Syncer
  import opened Tables
  import opened Vault

  /**
   * The two ends fit together: digests are hexadecimal, what the client encrypts the server accepts and decrypts,
   * and nothing gets lost on the way.
   */
  ghost predicate Working(link: Link) {
    var env, client := link.env, link.client;
    && Coherent(env.decoder) && HexDigests(env.hasher)
    && client.keyId in link.ring && KeyPair(env.cipher, client.recipient, link.ring[client.keyId])
    && (forall q: ChunkRequest :: link.network(q) == Heard)
    && forall plain: Bytes :: |plain| <= MAX_LINE ==> |env.cipher.encrypt(client.recipient, plain)| <= MAX_REQUEST_BODY
  }

  function KeyIn(link: Link, session: string): Key {
    Key(link.client.device, AGENT, session)
  }

  lemma GoodFits(plain: Bytes)
    requires GoodChunk(plain)
    ensures 0 < |plain| <= MAX_LINE && Terminated(plain)
  {
  }

  /** No chunk the chunker emits can fail a guard of the server. */
  lemma GoodPassesGuards(link: Link, session: string, start: nat, plain: Bytes, prefix: Bytes)
    requires Working(link) && link.env.safeId(session) && GoodChunk(plain)
    requires ParseChunkResult(link.env.decoder, plain, start, session).Ok?
    ensures var env := link.env;
      var sha := Sha(env.hasher, prefix);
      var q := RequestFor(env, link.client, session, start, plain, sha);
      && ToLower(sha) == sha
      && Check(env, link.ring, q)
      == Ok(Checked(ChunkRow(KeyIn(link, session), start, start + |plain|, q.keyId, q.plainSha, |plain|, q.body),
                    plain, ParseChunkResult(env.decoder, plain, start, session).value))
  {
    hide ParseChunkResult, ToLower, GoodChunk;
    GoodFits(plain);
  }

  /** One chunk that continues the archive is accepted as new. */
  lemma SendOneAppends(link: Link, db: Db, session: string, plain: Bytes)
    requires Working(link) && Inv(link.env, link.ring, db) && link.env.safeId(session)
    requires GoodChunk(plain) && Ready(db, KeyIn(link, session))
    requires var start := |ArchiveOf(link.env, link.ring, db, KeyIn(link, session))|;
      ParseChunkResult(link.env.decoder, plain, start, session).Ok?
    ensures var k, read := KeyIn(link, session), ArchiveOf(link.env, link.ring, db, KeyIn(link, session));
      var o := SendOne(link, db, session, read, plain);
      && Deliver(link, db, session, read, plain) == Delivered(o.db, None)
      && Inv(link.env, link.ring, o.db) && Ready(o.db, k)
      && ArchiveOf(link.env, link.ring, o.db, k) == read + plain
      && SameElsewhere(db, o.db, k)
  {
    hide Check, Put, KeyOk, TablesOk, SessionIdsOk, ParseChunkResult, GoodChunk, ReplayRows, ChunksOf, IndexedOf;
    var env, k := link.env, KeyIn(link, session);
    var read := ArchiveOf(env, link.ring, db, k);
    var q := RequestFor(env, link.client, session, |read|, plain, Sha(env.hasher, read + plain));
    GoodPassesGuards(link, session, |read|, plain, read + plain);
    CheckedIsUploaded(env, link.ring, q);
    var c := Check(env, link.ring, q).value;
    PutKeepsInvariant(env, link.ring, db, c.row, plain, q.prefixSha, c.parsed);
    PutKeepsReady(env, db, c.row, plain, q.prefixSha, c.parsed);
  }

  lemma PutKeepsReady(env: Env, db: Db, c: ChunkRow, plain: Bytes, prefixSha: string, parsed: Parsed)
    requires Ready(db, c.key)
    ensures Ready(Put(env, db, c, plain, prefixSha, parsed).db, c.key)
  {
    hide InsertEvents, EqualFold, FindChunk, ToLower;
  }

  lemma ElsewhereTransitive(a: Db, b: Db, c: Db, k: Key)
    requires SameElsewhere(a, b, k) && SameElsewhere(b, c, k)
    ensures SameElsewhere(a, c, k)
  {
    forall l | l != k
      ensures SameSession(a, c, l)
    {
      assert SameSession(a, b, l) && SameSession(b, c, l);
    }
  }

  /** Both halves of a text that parses parse, each from its own offset. */
  lemma SplitParses(d: Decoder, a: Bytes, b: Bytes, base: nat, session: string)
    requires Terminated(a) && LineAligned(b) && ParseChunkResult(d, a + b, base, session).Ok?
    ensures ParseChunkResult(d, a, base, session).Ok?
    ensures b != [] ==> ParseChunkResult(d, b, base + |a|, session).Ok?
  {
    hide ParseChunkResult;
    if b == [] {
      ConcatUnit(a);
    } else {
      ParseChunkComposes(d, a, b, base, session);
    }
  }

  /** Chunks one after the other: all are accepted, and the archive grows by exactly their bytes. */
  lemma {:induction false} SendChunksAppends(link: Link, db: Db, session: string, chunks: seq<Bytes>)
    requires Working(link) && Inv(link.env, link.ring, db) && link.env.safeId(session)
    requires Ready(db, KeyIn(link, session)) && forall i :: 0 <= i < |chunks| ==> GoodChunk(chunks[i])
    requires var start := |ArchiveOf(link.env, link.ring, db, KeyIn(link, session))|;
      chunks != [] ==> ParseChunkResult(link.env.decoder, Flat(chunks), start, session).Ok?
    ensures var k, read := KeyIn(link, session), ArchiveOf(link.env, link.ring, db, KeyIn(link, session));
      var s := SendChunks(link, db, session, read, chunks);
      && s.error == None && s.chunks == |chunks| && s.bytes == |Flat(chunks)|
      && Inv(link.env, link.ring, s.db) && Ready(s.db, k)
      && ArchiveOf(link.env, link.ring, s.db, k) == read + Flat(chunks)
      && SameElsewhere(db, s.db, k)
    decreases |chunks|
  {
    hide Inv, Working, ParseChunkResult, GoodChunk, ArchiveOf, SendOne, Deliver, SameElsewhere, Flat;
    var k, read := KeyIn(link, session), ArchiveOf(link.env, link.ring, db, KeyIn(link, session));
    if chunks == [] {
      FlatNothing();
      ConcatUnit(read);
      SameAsItself(db, k);
    } else {
      var first, rest := chunks[0], chunks[1..];
      assert forall i :: 0 <= i < |rest| ==> rest[i] == chunks[i + 1];
      FlatCons(chunks);
      GoodAreAligned(rest);
      GoodFits(first);
      SplitParses(link.env.decoder, first, Flat(rest), |read|, session);
      SendOneAppends(link, db, session, first);
      var after := SendOne(link, db, session, read, first).db;
      SendChunksAppends(link, after, session, rest);
      ConcatAssociative(read, first, Flat(rest));
      ElsewhereTransitive(db, after, SendChunks(link, after, session, read + first, rest).db, k);
    }
  }

  lemma FlatNothing()
    ensures Flat([]) == []
  {
  }

  lemma SameAsItself(db: Db, k: Key)
    ensures SameElsewhere(db, db, k)
  {
  }

  lemma {:induction false} GoodAreAligned(chunks: seq<Bytes>)
    requires forall i :: 0 <= i < |chunks| ==> GoodChunk(chunks[i])
    ensures LineAligned(Flat(chunks)) && (Flat(chunks) == [] <==> chunks == [])
  {
    if chunks != [] {
      GoodFits(chunks[0]);
      GoodAreAligned(chunks[1..]);
      var rest := Flat(chunks[1..]);
      if rest != [] { assert (chunks[0] + rest)[|chunks[0] + rest| - 1] == rest[|rest| - 1]; }
    }
  }

  /** A file the server can be brought up to date with: it continues its archive, and every record is valid and fits. */
  ghost predicate Syncable(link: Link, db: Db, session: string, contents: Bytes) {
    var archive := ArchiveOf(link.env, link.ring, db, KeyIn(link, session));
    && link.env.safeId(session)
    && Ready(db, KeyIn(link, session))
    && archive <= contents
    && ParseLines(link.env.decoder, LinesOf(contents), 0, session).Ok?
    && Fits(LinesOf(contents), TailOf(contents))
  }

  lemma FitsBehind(a: seq<Bytes>, b: seq<Bytes>, tail: Bytes)
    requires Fits(a + b, tail)
    ensures Fits(b, tail)
  {
    assert forall i :: 0 <= i < |b| ==> b[i] == (a + b)[i + |a|];
  }

  /** What holds of a whole file holds of its part behind a line boundary. */
  lemma BehindTheArchive(d: Decoder, archive: Bytes, rest: Bytes, session: string)
    requires LineAligned(archive)
    requires ParseLines(d, LinesOf(archive + rest), 0, session).Ok?
    requires Fits(LinesOf(archive + rest), TailOf(archive + rest))
    ensures Fits(LinesOf(rest), TailOf(rest))
    ensures CompletePrefix(rest) != [] ==> ParseChunkResult(d, CompletePrefix(rest), |archive|, session).Ok?
    ensures CompletePrefix(archive + rest) == archive + CompletePrefix(rest)
  {
    hide IndexByte, LinesOf, CompletePrefix, TailOf, Fits, ParseLines, Flat;
    var own := LinesOf(rest);
    LinesOfConcat(archive, rest);
    TailAfterLine(archive, rest);
    CompletePrefixOfConcat(archive, rest);
    FlatOfAligned(archive);
    FlatIsWhole(rest);
    ParseLinesCompose(d, LinesOf(archive), own, 0, session);
    FitsBehind(LinesOf(archive), own, TailOf(rest));
  }

  lemma FlatIsWhole(text: Bytes)
    ensures LinesOf(CompletePrefix(text)) == LinesOf(text)
  {
    TextInLines(text);
    LinesInText(LinesOf(text), []);
    ConcatUnit(CompletePrefix(text));
    assert !HasLine([]);
  }

  /**
   * One file, from any state of the server, however it came about: the sync succeeds, archives the file to
   * its last newline, counts exactly the growth, and touches no other session.
   */
  lemma SyncFileConverges(link: Link, db: Db, session: string, contents: Bytes)
    requires Working(link) && Inv(link.env, link.ring, db) && Syncable(link, db, session, contents)
    ensures var k, archive := KeyIn(link, session), ArchiveOf(link.env, link.ring, db, KeyIn(link, session));
      var checkpoint := CheckpointOf(link.env, db, k);
      && checkpoint.Ok? && checkpoint.value.nextOffset == |archive|
      && var s := SyncFile(link, db, session, contents, checkpoint.value);
      && s.error == None
      && Inv(link.env, link.ring, s.db) && Ready(s.db, k)
      && ArchiveOf(link.env, link.ring, s.db, k) == CompletePrefix(contents)
      && s.bytes == |CompletePrefix(contents)| - |archive|
      && (s.chunks == 0 <==> archive == CompletePrefix(contents))
      && (s.chunks == 0 ==> s.db == db)
      && SameElsewhere(db, s.db, k)
  {
    hide Working, Inv, KeyOk, ParseLines, ParseChunkResult, LinesOf, TailOf, CutText, Sha, ArchiveOf, CheckpointOf,
         EqualFold, SameElsewhere, CompletePrefix, SendChunks, GoodChunk, Fits;
    var env, k := link.env, KeyIn(link, session);
    var archive := ArchiveOf(env, link.ring, db, k);
    InvOfKey(env, link.ring, db, k);
    CheckpointIsPrefix(env, link.ring, db, k);
    ArchiveIsAligned(env, link.ring, db, k);
    var rest := contents[|archive|..];
    assert contents == archive + rest && contents[..|archive|] == archive;
    BehindTheArchive(env.decoder, archive, rest, session);
    CutIsGood(rest);
    var chunks := CutText(rest).chunks;
    GoodAreAligned(chunks);
    FoldReflexive(Sha(env.hasher, archive));
    SendChunksAppends(link, db, session, chunks);
    SendNothing(link, db, session, archive);
  }

  lemma InvOfKey(env: Env, ring: Keyring, db: Db, k: Key)
    requires Inv(env, ring, db)
    ensures KeyOk(env, ring, db, k)
  {
  }

  lemma FoldReflexive(a: string)
    ensures EqualFold(a, a)
  {
  }

  lemma SendNothing(link: Link, db: Db, session: string, read: Bytes)
    ensures SendChunks(link, db, session, read, []) == Sent(db, 0, 0, None)
  {
  }

  /** The request that opens a session. */
  function FirstRequest(link: Link, session: string, plain: Bytes): ChunkRequest {
    RequestFor(link.env, link.client, session, 0, plain, Sha(link.env.hasher, plain))
  }

  /** A good chunk that parses from byte 0 opens a session the server does not know. */
  lemma FirstUpload(link: Link, db: Db, session: string, plain: Bytes)
    requires Working(link) && Inv(link.env, link.ring, db) && link.env.safeId(session) && GoodChunk(plain)
    requires KeyIn(link, session) !in db.sessions && ParseChunkResult(link.env.decoder, plain, 0, session).Ok?
    ensures var k := KeyIn(link, session);
      var after := Upload(link.env, link.ring, db, FirstRequest(link, session, plain)).db;
      && Inv(link.env, link.ring, after) && Ready(after, k) && ArchiveOf(link.env, link.ring, after, k) == plain
  {
    hide Inv, Working, KeyOk, Upload, ParseChunkResult, GoodChunk, ReplyError, Sha;
    var k := KeyIn(link, session);
    InvOfKey(link.env, link.ring, db, k);
    UnknownIsEmpty(link.env, link.ring, db, k);
    ConcatUnit(plain);
    SendOneAppends(link, db, session, plain);
  }

  lemma IsWorking(link: Link)
    requires Working(link)
    ensures Coherent(link.env.decoder) && HexDigests(link.env.hasher)
  {
  }

  // A whole run.

  lemma SameSessionElsewhere(db: Db, after: Db, k: Key, l: Key)
    requires SameElsewhere(db, after, k) && l != k
    ensures SameSession(db, after, l)
  {
  }

  lemma SameSessionKeeps(link: Link, db: Db, after: Db, session: string, contents: Bytes)
    requires SameSession(db, after, KeyIn(link, session))
    ensures Syncable(link, db, session, contents) <==> Syncable(link, after, session, contents)
    ensures var k := KeyIn(link, session);
      && ArchiveOf(link.env, link.ring, after, k) == ArchiveOf(link.env, link.ring, db, k)
      && CheckpointOf(link.env, after, k) == CheckpointOf(link.env, db, k)
  {
    hide ChunksOf, IndexedOf, ReplayRows, ParseLines, LinesOf, Fits, TailOf, Extend;
  }

  ghost predicate DistinctIds(sources: seq<Source>) {
    forall i, j :: 0 <= i < j < |sources| ==> sources[i].sessionId != sources[j].sessionId
  }

  ghost predicate AllSyncable(link: Link, db: Db, sources: seq<Source>) {
    forall i :: 0 <= i < |sources| ==> Syncable(link, db, sources[i].sessionId, sources[i].contents)
  }

  /** `plan` gives every source the checkpoint it has in `db`. */
  ghost predicate Planned(link: Link, plan: map<string, Checkpoint>, db: Db, sources: seq<Source>) {
    forall i :: 0 <= i < |sources| ==>
      && sources[i].sessionId in plan
      && CheckpointOf(link.env, db, KeyIn(link, sources[i].sessionId)) == Ok(plan[sources[i].sessionId])
  }

  /** By how many bytes the files are ahead of the server. */
  function Growth(link: Link, db: Db, sources: seq<Source>): int {
    if sources == [] then 0
    else
      |CompletePrefix(sources[0].contents)| - |ArchiveOf(link.env, link.ring, db, KeyIn(link, sources[0].sessionId))|
      + Growth(link, db, sources[1..])
  }

  /** How many files are ahead of the server. */
  function Behind(link: Link, db: Db, sources: seq<Source>): nat {
    if sources == [] then 0
    else
      var archive := ArchiveOf(link.env, link.ring, db, KeyIn(link, sources[0].sessionId));
      (if archive == CompletePrefix(sources[0].contents) then 0 else 1) + Behind(link, db, sources[1..])
  }

  ghost predicate AllSame(link: Link, db: Db, after: Db, sources: seq<Source>) {
    forall i :: 0 <= i < |sources| ==> SameSession(db, after, KeyIn(link, sources[i].sessionId))
  }

  lemma {:induction false} StillToDo(link: Link, plan: map<string, Checkpoint>, db: Db, after: Db, sources: seq<Source>)
    requires AllSame(link, db, after, sources) && AllSyncable(link, db, sources) && Planned(link, plan, db, sources)
    ensures AllSyncable(link, after, sources) && Planned(link, plan, after, sources)
    ensures Growth(link, after, sources) == Growth(link, db, sources)
    ensures Behind(link, after, sources) == Behind(link, db, sources)
  {
    hide SameSession, Syncable, ArchiveOf, CheckpointOf, CompletePrefix;
    if sources != [] {
      var rest := sources[1..];
      assert forall i :: 0 <= i < |rest| ==> rest[i] == sources[i + 1];
      assert SameSession(db, after, KeyIn(link, sources[0].sessionId));
      SameSessionKeeps(link, db, after, sources[0].sessionId, sources[0].contents);
      StillToDo(link, plan, db, after, rest);
      forall i | 0 <= i < |sources|
        ensures Syncable(link, after, sources[i].sessionId, sources[i].contents)
        ensures CheckpointOf(link.env, after, KeyIn(link, sources[i].sessionId)) == Ok(plan[sources[i].sessionId])
      {
        SameSessionKeeps(link, db, after, sources[i].sessionId, sources[i].contents);
      }
    }
  }

  /** All sources are archived to their last newline. */
  ghost predicate UpToDate(link: Link, db: Db, sources: seq<Source>) {
    forall i :: 0 <= i < |sources| ==>
      && ArchiveOf(link.env, link.ring, db, KeyIn(link, sources[i].sessionId)) == CompletePrefix(sources[i].contents)
      && Ready(db, KeyIn(link, sources[i].sessionId))
  }

  /** Sessions that are not among the sources. */
  ghost predicate OthersUntouched(link: Link, db: Db, after: Db, sources: seq<Source>) {
    forall k ::
      (forall i :: 0 <= i < |sources| ==> k != KeyIn(link, sources[i].sessionId)) ==> SameSession(db, after, k)
  }

  lemma {:induction false} SourcesConverge(link: Link, plan: map<string, Checkpoint>, db: Db, sources: seq<Source>)
    requires Working(link) && Inv(link.env, link.ring, db) && DistinctIds(sources)
    requires AllSyncable(link, db, sources) && Planned(link, plan, db, sources)
    ensures var r := SyncSources(link, plan, db, sources);
      && r.error == None
      && Inv(link.env, link.ring, r.db)
      && UpToDate(link, r.db, sources)
      && OthersUntouched(link, db, r.db, sources)
      && r.bytes == Growth(link, db, sources)
      && r.sessions == Behind(link, db, sources)
      && (r.sessions == 0 ==> r.db == db && r.chunks == 0)
    decreases |sources|
  {
    hide Working, Inv, Syncable, SyncFile, ArchiveOf, CheckpointOf, CompletePrefix, SameElsewhere, SameSession, Ready;
    if sources == [] {
      forall k ensures SameSession(db, db, k) { SameToItself(db, k); }
    } else {
      var first, rest := sources[0], sources[1..];
      var k := KeyIn(link, first.sessionId);
      assert forall i :: 0 <= i < |rest| ==> rest[i] == sources[i + 1];
      assert Syncable(link, db, first.sessionId, first.contents);
      SyncFileConverges(link, db, first.sessionId, first.contents);
      var after := SyncFile(link, db, first.sessionId, first.contents, plan[first.sessionId]).db;
      forall l | l != k ensures SameSession(db, after, l) { SameSessionElsewhere(db, after, k, l); }
      assert forall i :: 0 <= i < |rest| ==> KeyIn(link, rest[i].sessionId) != k;
      StillToDo(link, plan, db, after, rest);
      SourcesConverge(link, plan, after, rest);
      var end := SyncSources(link, plan, after, rest).db;
      assert SameSession(after, end, k);
      SameSessionKeeps(link, after, end, first.sessionId, first.contents);
      ReadySame(after, end, k);
      forall l | forall i :: 0 <= i < |sources| ==> l != KeyIn(link, sources[i].sessionId)
        ensures SameSession(db, end, l)
      {
        assert l != KeyIn(link, sources[0].sessionId);
        SameSessionTransitive(db, after, end, l);
      }
    }
  }

  lemma SameToItself(db: Db, k: Key)
    ensures SameSession(db, db, k)
  {
  }

  lemma ReadySame(db: Db, after: Db, k: Key)
    requires SameSession(db, after, k) && Ready(db, k)
    ensures Ready(after, k)
  {
  }

  lemma SameSessionTransitive(a: Db, b: Db, c: Db, k: Key)
    requires SameSession(a, b, k) && SameSession(b, c, k)
    ensures SameSession(a, c, k)
  {
  }

  /** A manifest the server plans: not too many, distinct, and no file listed shorter than its archive. */
  ghost predicate Listed(link: Link, db: Db, sources: seq<Source>) {
    && |sources| <= MAX_MANIFEST_SESSIONS && DistinctIds(sources)
    && forall i :: 0 <= i < |sources| ==>
         sources[i].size >= |ArchiveOf(link.env, link.ring, db, KeyIn(link, sources[i].sessionId))|
  }

  /** What a run does: refuse the plan, or sync every source against it. */
  function RunOutcome(link: Link, db: Db, sources: seq<Source>): Ran {
    SyncSources(link, PlanOf(link.env, db, link.client.device, IdsOf(ManifestOf(sources))), db, sources)
  }

  lemma PlanCovers(link: Link, db: Db, sources: seq<Source>)
    requires Inv(link.env, link.ring, db) && AllSyncable(link, db, sources) && Listed(link, db, sources)
    ensures PlanAccepts(link.env, db, link.client.device, AGENT, ManifestOf(sources))
    ensures Planned(link, PlanOf(link.env, db, link.client.device, IdsOf(ManifestOf(sources))), db, sources)
  {
    hide Inv, KeyOk, ArchiveOf, CheckpointOf, ParseLines, LinesOf, TailOf, Fits, Sha;
    var ids := IdsOf(ManifestOf(sources));
    forall i | 0 <= i < |sources|
      ensures CheckpointOf(link.env, db, KeyIn(link, sources[i].sessionId)).Ok? && ids[i] == sources[i].sessionId
      ensures Plannable(link.env, db, link.client.device, ManifestOf(sources)[i])
    {
      InvOfKey(link.env, link.ring, db, KeyIn(link, sources[i].sessionId));
      CheckpointIsPrefix(link.env, link.ring, db, KeyIn(link, sources[i].sessionId));
    }
  }

  /**
   * Convergence of one run. From any state that satisfies the invariant, an uncontended run over files that
   * continue their archives succeeds: every archive ends at its file's last newline, the bytes reported are
   * exactly the growth of the server offsets, the sessions reported are those that grew, and no other session
   * changes.
   */
  lemma RunConverges(link: Link, db: Db, sources: seq<Source>)
    requires Working(link) && Inv(link.env, link.ring, db)
    requires AllSyncable(link, db, sources) && Listed(link, db, sources)
    ensures PlanAccepts(link.env, db, link.client.device, AGENT, ManifestOf(sources))
    ensures var r := RunOutcome(link, db, sources);
      && r.error == None
      && Inv(link.env, link.ring, r.db)
      && UpToDate(link, r.db, sources)
      && OthersUntouched(link, db, r.db, sources)
      && r.bytes == Growth(link, db, sources)
      && r.sessions == Behind(link, db, sources)
  {
    hide Working, Inv, AllSyncable, PlanAccepts, Planned, PlanOf, IdsOf, UpToDate, OthersUntouched, Growth, Behind;
    PlanCovers(link, db, sources);
    SourcesConverge(link, PlanOf(link.env, db, link.client.device, IdsOf(ManifestOf(sources))), db, sources);
  }

  /** The same files listed again. */
  ghost predicate Relisted(sources: seq<Source>, again: seq<Source>) {
    && |again| == |sources|
    && forall i :: 0 <= i < |sources| ==>
         && again[i].sessionId == sources[i].sessionId && again[i].contents == sources[i].contents
         && again[i].size >= |CompletePrefix(again[i].contents)|
  }

  lemma {:induction false} NoneBehind(link: Link, db: Db, sources: seq<Source>)
    requires UpToDate(link, db, sources)
    ensures Behind(link, db, sources) == 0
  {
    if sources != [] {
      hide ArchiveOf, CompletePrefix, Ready;
      assert forall i :: 0 <= i < |sources[1..]| ==> sources[1..][i] == sources[i + 1];
      NoneBehind(link, db, sources[1..]);
    }
  }

  /** A further run over the unchanged files uploads nothing and changes nothing. */
  lemma RerunUploadsNothing(link: Link, db: Db, sources: seq<Source>, again: seq<Source>)
    requires Working(link) && Inv(link.env, link.ring, db)
    requires AllSyncable(link, db, sources) && Listed(link, db, sources) && Relisted(sources, again)
    ensures var after := RunOutcome(link, db, sources).db;
      && PlanAccepts(link.env, after, link.client.device, AGENT, ManifestOf(again))
      && RunOutcome(link, after, again) == Ran(after, 0, 0, 0, None)
  {
    hide Working, Inv, PlanAccepts, Planned, PlanOf, IdsOf, SyncSources, ArchiveOf, ParseLines, LinesOf, TailOf, Fits,
         CompletePrefix, Ready, OthersUntouched;
    RunConverges(link, db, sources);
    var after := RunOutcome(link, db, sources).db;
    forall i | 0 <= i < |again|
      ensures Syncable(link, after, again[i].sessionId, again[i].contents)
      ensures again[i].size >= |ArchiveOf(link.env, link.ring, after, KeyIn(link, again[i].sessionId))|
    {
      assert Syncable(link, db, sources[i].sessionId, sources[i].contents);
    }
    assert UpToDate(link, after, again);
    NoneBehind(link, after, again);
    PlanCovers(link, after, again);
    SourcesConverge(link, PlanOf(link.env, after, link.client.device, IdsOf(ManifestOf(again))), after, again);
    NoGrowth(link, after, again);
  }

  lemma {:induction false} NoGrowth(link: Link, db: Db, sources: seq<Source>)
    requires UpToDate(link, db, sources)
    ensures Growth(link, db, sources) == 0
  {
    if sources != [] {
      hide ArchiveOf, CompletePrefix, Ready;
      assert forall i :: 0 <= i < |sources[1..]| ==> sources[1..][i] == sources[i + 1];
      NoGrowth(link, db, sources[1..]);
    }
  }

  /** Sync, then export: the administrator gets back the file's whole records, byte for byte. */
  lemma SyncThenExport(link: Link, keys: Keyring, db: Db, sources: seq<Source>, i: nat)
    requires Working(link) && Inv(link.env, link.ring, db) && Complete(link.ring, keys)
    requires AllSyncable(link, db, sources) && Listed(link, db, sources)
    requires i < |sources| && CompletePrefix(sources[i].contents) != []
    ensures var k, after := KeyIn(link, sources[i].sessionId), RunOutcome(link, db, sources).db;
      var rows := SortBy(StartOf, ChunksOf(after.chunks, k));
      && rows != [] && Intact(link.env, keys, rows)
      && Contents(link.env, keys, rows) == CompletePrefix(sources[i].contents)
  {
    hide Inv, KeyOk, Working, AllSyncable, PlanAccepts, RunOutcome, SortBy, ChunksOf, Intact, Contents, Growth, Behind,
         ArchiveOf, Listed, OthersUntouched;
    var k, after := KeyIn(link, sources[i].sessionId), RunOutcome(link, db, sources).db;
    RunConverges(link, db, sources);
    InvOfKey(link.env, link.ring, after, k);
    ExportIsArchive(link.env, link.ring, keys, after, k);
    ArchiveIsAligned(link.env, link.ring, after, k);
    assert ArchiveOf(link.env, link.ring, after, k) == CompletePrefix(sources[i].contents);
  }
}
