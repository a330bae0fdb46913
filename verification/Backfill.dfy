/** Startup backfill: rebuilding hash states and metadata from the archive. */
module Backfill {
  import Admin
  import opened Basics
  import opened Hashing
  import opened Invariant
  import opened Lines
  import opened Ordering
  import opened Queries
  import opened Records
  import opened Replay
  import opened Server
  import opened Store
  import opened Tables
  import opened Vault

  datatype RebuildError =
    | NoArchive
    | OffsetGap
    | MissingServerKey
    | CannotDecrypt
    | IntegrityFailure
    | CannotParse(why: ParseError)
    | ArchiveMismatch

  datatype Rebuilt = Rebuilt(state: HashState, meta: Metadata)

  /** A session's chunks in query order. */
  function ArchivedChunks(db: Db, k: Key): seq<ChunkRow> {
    SortBy(StartOf, ChunksOf(db.chunks, k))
  }

  /** What has been read back of an archive: its hash state, where it ends, and its first metadata. */
  datatype Progress = Progress(state: HashState, end: nat, metadata: Option<Metadata>)

  /** Reading one more chunk back: in sequence, decrypted, with its size and digest, and parsed. */
  function ReadChunk(env: Env, ring: Keyring, session: string, p: Progress, c: ChunkRow): Option<Progress> {
    if c.start != p.end then None
    else match Open(env.cipher, ring, c.keyId, c.ciphertext)
      case None => None
      case Some(plain) =>
        if |plain| != c.size || Sha(env.hasher, plain) != c.sha then None
        else match ParseChunkResult(env.decoder, plain, c.start, session)
          case Err(_) => None
          case Ok(parsed) =>
            Some(Progress(Extend(env.hasher, p.state, plain), c.end,
                          if parsed.metadata.Some? then parsed.metadata else p.metadata))
  }

  function ReadBack(env: Env, ring: Keyring, session: string, rows: seq<ChunkRow>): Option<Progress> {
    if rows == [] then Some(Progress(env.hasher.init, 0, None))
    else match ReadBack(env, ring, session, rows[..|rows| - 1])
      case None => None
      case Some(p) => ReadChunk(env, ring, session, p, rows[|rows| - 1])
  }

  /** What a session's row should say; none if its archive does not read back whole, to the stored offset. */
  function Target(env: Env, ring: Keyring, session: string, rows: seq<ChunkRow>, nextOffset: nat): Option<Rebuilt> {
    match ReadBack(env, ring, session, rows)
    case None => None
    case Some(p) =>
      if rows == [] || p.end != nextOffset || p.metadata.None? then None else Some(Rebuilt(p.state, p.metadata.value))
  }

  function TargetOf(env: Env, ring: Keyring, db: Db, k: Key): Option<Rebuilt>
    requires k in db.sessions
  {
    Target(env, ring, k.session, ArchivedChunks(db, k), db.sessions[k].nextOffset)
  }

  /** One chunk further, or stuck for good. */
  lemma ReadBackNext(env: Env, ring: Keyring, session: string, rows: seq<ChunkRow>, i: nat, next: nat)
    requires i < |rows| && next == i + 1 && ReadBack(env, ring, session, rows[..i]).Some?
    ensures var r := ReadChunk(env, ring, session, ReadBack(env, ring, session, rows[..i]).value, rows[i]);
      && ReadBack(env, ring, session, rows[..next]) == r
      && (r.None? ==> ReadBack(env, ring, session, rows).None?)
  {
    hide ReadChunk;
    assert rows[..next][..i] == rows[..i];
    if ReadBack(env, ring, session, rows).Some? { ReadBackPrefix(env, ring, session, rows, next); }
  }

  lemma {:induction false} ReadBackPrefix(env: Env, ring: Keyring, session: string, rows: seq<ChunkRow>, n: nat)
    requires n <= |rows| && ReadBack(env, ring, session, rows).Some?
    ensures ReadBack(env, ring, session, rows[..n]).Some?
  {
    hide ReadChunk;
    if n == |rows| {
      assert rows[..n] == rows;
    } else {
      ReadBackPrefix(env, ring, session, rows[..|rows| - 1], n);
      assert rows[..|rows| - 1][..n] == rows[..n];
    }
  }

  /** What is wrong with chunk `i`, the first that breaks the archive. */
  ghost predicate StopsAt(env: Env, ring: Keyring, session: string, rows: seq<ChunkRow>, i: nat, e: RebuildError) {
    && i < |rows| && Admin.Intact(env, ring, rows[..i]) && AllParse(env, ring, session, rows[..i])
    && match e
       case OffsetGap => Admin.Breaks(env, ring, rows, i, Admin.OffsetGap)
       case MissingServerKey => Admin.Breaks(env, ring, rows, i, Admin.MissingServerKey)
       case CannotDecrypt => Admin.Breaks(env, ring, rows, i, Admin.CannotDecrypt)
       case IntegrityFailure => Admin.Breaks(env, ring, rows, i, Admin.IntegrityFailure)
       case CannotParse(why) =>
         Admin.ReadsBack(env, ring, rows[i]) && RecordsIn(env, ring, session, rows[i]) == Err(why)
       case _ => false
  }

  /** Why a session cannot be rebuilt. */
  ghost predicate ExplainsRebuild(env: Env, ring: Keyring, session: string, rows: seq<ChunkRow>, nextOffset: nat,
                                  e: RebuildError) {
    match e
    case NoArchive => rows == []
    case ArchiveMismatch =>
      && rows != [] && Admin.Intact(env, ring, rows) && AllParse(env, ring, session, rows)
      && (rows[|rows| - 1].end != nextOffset || forall meta :: !HasMetadata(env, ring, session, rows, meta))
    case _ => exists i: nat :: StopsAt(env, ring, session, rows, i, e)
  }

  lemma NothingToRebuild(env: Env, ring: Keyring, session: string, nextOffset: nat)
    ensures ExplainsRebuild(env, ring, session, [], nextOffset, NoArchive)
  {
  }

  lemma Mismatch(env: Env, ring: Keyring, session: string, rows: seq<ChunkRow>, nextOffset: nat)
    requires rows != [] && ReadBack(env, ring, session, rows).Some?
    ensures var p := ReadBack(env, ring, session, rows).value;
      p.end != nextOffset || p.metadata.None? ==> ExplainsRebuild(env, ring, session, rows, nextOffset, ArchiveMismatch)
  {
    hide Admin.Intact, AllParse, HasMetadata, Admin.Contents, ReadBack;
    ReadBackIsIntact(env, ring, session, rows);
  }

  lemma Faults(env: Env, ring: Keyring, session: string, rows: seq<ChunkRow>, i: nat, nextOffset: nat)
    requires i < |rows| && ReadBack(env, ring, session, rows[..i]).Some?
    ensures var c, n := rows[i], nextOffset;
      var found, plain := Open(env.cipher, ring, c.keyId, c.ciphertext), PlainOf(env, ring, c);
      && (c.start != ReadBack(env, ring, session, rows[..i]).value.end ==>
            ExplainsRebuild(env, ring, session, rows, n, OffsetGap))
      && (c.keyId !in ring ==> ExplainsRebuild(env, ring, session, rows, n, MissingServerKey))
      && (c.keyId in ring && Decrypt(env.cipher, c.ciphertext, ring[c.keyId], MAX_PLAIN).None? ==>
            ExplainsRebuild(env, ring, session, rows, n, CannotDecrypt))
      && (found.Some? && !(|plain| == c.size && Sha(env.hasher, plain) == c.sha) ==>
            ExplainsRebuild(env, ring, session, rows, n, IntegrityFailure))
      && (Admin.ReadsBack(env, ring, c) && RecordsIn(env, ring, session, c).Err? ==>
            ExplainsRebuild(env, ring, session, rows, n, CannotParse(RecordsIn(env, ring, session, c).error)))
  {
    hide Admin.Intact, AllParse, HasMetadata, Admin.Contents, ReadBack, Sha, Decrypt, RecordsIn;
    ReadBackIsIntact(env, ring, session, rows[..i]);
    forall e
      ensures StopsAt(env, ring, session, rows, i, e) ==> ExplainsRebuild(env, ring, session, rows, nextOffset, e)
    {
    }
  }

  /** The archive of one pending session, read back, checked and hashed. */
  method RebuildSession(server: Server, p: PendingSession) returns (r: Result<Rebuilt, RebuildError>)
    ensures var rows := ArchivedChunks(server.store.Snapshot(), p.key);
      var target := Target(server.store.env, server.ring, p.key.session, rows, p.nextOffset);
      if target.Some? then r == Ok(target.value)
      else r.Err? && ExplainsRebuild(server.store.env, server.ring, p.key.session, rows, p.nextOffset, r.error)
  {
    hide ParseChunkResult, Sha, SortBy, ReadBack, Decrypt, ChunksOf, ExplainsRebuild;
    NothingToRebuild(server.store.env, server.ring, p.key.session, p.nextOffset);
    var env, session := server.store.env, p.key.session;
    SortBySorts(StartOf, ChunksOf(server.store.chunks, p.key));
    PermutationLength(SortBy(StartOf, ChunksOf(server.store.chunks, p.key)), ChunksOf(server.store.chunks, p.key));
    var loaded := server.store.Chunks(p.key);
    if loaded.Err? {
      return Err(NoArchive);
    }
    var rows := loaded.value;
    var hasher, expected := env.hasher.init, 0;
    var metadata: Option<Metadata> := None;
    assert rows[..0] == [];
    ReadBackNothing(env, server.ring, session);
    var i := 0;
    while i < |rows|
      invariant 0 <= i <= |rows|
      invariant ReadBack(env, server.ring, session, rows[..i]) == Some(Progress(hasher, expected, metadata))
    {
      var chunk := rows[i];
      ReadBackNext(env, server.ring, session, rows, i, i + 1);
      Faults(env, server.ring, session, rows, i, p.nextOffset);
      if chunk.start != expected {
        return Err(OffsetGap);
      }
      if chunk.keyId !in server.ring {
        return Err(MissingServerKey);
      }
      var decrypted := Decrypt(env.cipher, chunk.ciphertext, server.ring[chunk.keyId], MAX_PLAIN);
      if decrypted.None? {
        return Err(CannotDecrypt);
      }
      var plain := decrypted.value;
      if |plain| != chunk.size || Sha(env.hasher, plain) != chunk.sha {
        return Err(IntegrityFailure);
      }
      var parsed := ParseChunk(env.decoder, plain, chunk.start, session);
      if parsed.Err? {
        return Err(CannotParse(parsed.error));
      }
      if parsed.value.metadata.Some? {
        metadata := parsed.value.metadata;
      }
      hasher := Extend(env.hasher, hasher, plain);
      expected := chunk.end;
      i := i + 1;
    }
    assert rows[..i] == rows;
    Mismatch(env, server.ring, session, rows, p.nextOffset);
    if expected != p.nextOffset || metadata.None? {
      return Err(ArchiveMismatch);
    }
    return Ok(Rebuilt(hasher, metadata.value));
  }

  lemma ReadBackNothing(env: Env, ring: Keyring, session: string)
    ensures ReadBack(env, ring, session, []) == Some(Progress(env.hasher.init, 0, None))
  {
  }

  /** The row `k` has after its backfill. */
  function Filled(row: SessionRow, t: Rebuilt): SessionRow {
    row.(meta := t.meta, hashState := Some(t.state), metadataVersion := 1)
  }

  /** The sessions after the pending ones in `done` have been rebuilt, and nothing else has changed. */
  ghost predicate BackfilledIn(env: Env, ring: Keyring, before: Db, after: Db, done: set<Key>) {
    && after == before.(sessions := after.sessions)
    && after.sessions.Keys == before.sessions.Keys
    && (forall k :: k in done ==>
          k in before.sessions && IsPending(before.sessions[k]) && TargetOf(env, ring, before, k).Some?)
    && (forall k :: k in done ==> after.sessions[k] == Filled(before.sessions[k], TargetOf(env, ring, before, k).value))
    && (forall k :: k in before.sessions && k !in done ==> after.sessions[k] == before.sessions[k])
  }

  // Which sessions are rebuilt, in terms of their chunk rows alone.

  /** What the records of chunk `c` say. */
  function RecordsIn(env: Env, ring: Keyring, session: string, c: ChunkRow): Result<Parsed, ParseError> {
    ParseChunkResult(env.decoder, PlainOf(env, ring, c), c.start, session)
  }

  ghost predicate AllParse(env: Env, ring: Keyring, session: string, rows: seq<ChunkRow>) {
    forall i :: 0 <= i < |rows| ==> RecordsIn(env, ring, session, rows[i]).Ok?
  }

  /** Chunk `i` is the last that has session metadata, namely `meta`. */
  ghost predicate Names(env: Env, ring: Keyring, session: string, rows: seq<ChunkRow>, i: nat, meta: Metadata) {
    && i < |rows| && AllParse(env, ring, session, rows)
    && RecordsIn(env, ring, session, rows[i]).value.metadata == Some(meta)
    && forall j :: i < j < |rows| ==> RecordsIn(env, ring, session, rows[j]).value.metadata.None?
  }

  ghost predicate HasMetadata(env: Env, ring: Keyring, session: string, rows: seq<ChunkRow>, meta: Metadata) {
    exists i: nat :: Names(env, ring, session, rows, i, meta)
  }

  /**
   * The chunks are a whole archive: they follow each other from 0 to the stored offset, each reads back with its
   * size and digest and holds records, one of them the metadata.
   */
  ghost predicate WholeArchive(env: Env, ring: Keyring, session: string, rows: seq<ChunkRow>, nextOffset: nat,
                               meta: Metadata) {
    && rows != [] && Admin.Intact(env, ring, rows) && rows[|rows| - 1].end == nextOffset
    && AllParse(env, ring, session, rows) && HasMetadata(env, ring, session, rows, meta)
  }

  lemma MetadataSnoc(env: Env, ring: Keyring, session: string, rows: seq<ChunkRow>, meta: Metadata)
    requires rows != [] && AllParse(env, ring, session, rows)
    ensures var last := RecordsIn(env, ring, session, rows[|rows| - 1]).value.metadata;
      HasMetadata(env, ring, session, rows, meta)
      <==> last == Some(meta) || (last.None? && HasMetadata(env, ring, session, rows[..|rows| - 1], meta))
  {
    hide RecordsIn;
    var before, n := rows[..|rows| - 1], |rows| - 1;
    if RecordsIn(env, ring, session, rows[n]).value.metadata == Some(meta) {
      assert Names(env, ring, session, rows, n, meta);
    }
    if HasMetadata(env, ring, session, rows, meta) {
      var i: nat :| Names(env, ring, session, rows, i, meta);
      if i < n { assert Names(env, ring, session, before, i, meta); }
    }
    if HasMetadata(env, ring, session, before, meta) && RecordsIn(env, ring, session, rows[n]).value.metadata.None? {
      var i: nat :| Names(env, ring, session, before, i, meta);
      assert rows[i] == before[i];
      assert forall j :: i < j < n ==> rows[j] == before[j];
      assert Names(env, ring, session, rows, i, meta);
    }
  }

  lemma IntactSnoc(env: Env, ring: Keyring, rows: seq<ChunkRow>)
    requires rows != []
    ensures var n := |rows| - 1;
      var follows := rows[n].start == Admin.EndBefore(rows, n) && Admin.ReadsBack(env, ring, rows[n]);
      Admin.Intact(env, ring, rows) <==> Admin.Intact(env, ring, rows[..n]) && follows
  {
    hide Admin.ReadsBack;
    var before := rows[..|rows| - 1];
    assert forall i :: 0 <= i < |before| ==> before[i] == rows[i];
  }

  lemma ReadChunkMeans(env: Env, ring: Keyring, session: string, p: Progress, c: ChunkRow)
    ensures ReadChunk(env, ring, session, p, c).Some?
       <==> c.start == p.end && Admin.ReadsBack(env, ring, c) && RecordsIn(env, ring, session, c).Ok?
    ensures ReadChunk(env, ring, session, p, c).Some? ==>
      var q, last := ReadChunk(env, ring, session, p, c).value, RecordsIn(env, ring, session, c).value.metadata;
      && q.state == Extend(env.hasher, p.state, PlainOf(env, ring, c)) && q.end == c.end
      && q.metadata == if last.Some? then last else p.metadata
  {
    hide ParseChunkResult, Sha;
  }

  /** Reading back is checking that the chunks are intact records, and hashing their contents. */
  lemma {:induction false} ReadBackIsIntact(env: Env, ring: Keyring, session: string, rows: seq<ChunkRow>)
    ensures ReadBack(env, ring, session, rows).Some?
       <==> Admin.Intact(env, ring, rows) && AllParse(env, ring, session, rows)
    ensures ReadBack(env, ring, session, rows).Some? ==>
      var p := ReadBack(env, ring, session, rows).value;
      && p.state == StateOf(env.hasher, Admin.Contents(env, ring, rows)) && p.end == Admin.EndBefore(rows, |rows|)
      && forall meta :: HasMetadata(env, ring, session, rows, meta) <==> p.metadata == Some(meta)
  {
    hide ReadChunk, RecordsIn, Admin.Intact, Admin.ReadsBack, PlainOf, HasMetadata;
    if rows == [] {
      Admin.IntactNothing(env, ring);
      NoMetadata(env, ring, session);
    } else {
      var before, last := rows[..|rows| - 1], rows[|rows| - 1];
      ReadBackIsIntact(env, ring, session, before);
      IntactSnoc(env, ring, rows);
      AllParseSnoc(env, ring, session, rows);
      if ReadBack(env, ring, session, before).Some? {
        ReadChunkMeans(env, ring, session, ReadBack(env, ring, session, before).value, last);
        ExtendConcat(env.hasher, env.hasher.init, Admin.Contents(env, ring, before), PlainOf(env, ring, last));
      }
      if AllParse(env, ring, session, rows) {
        forall meta
          ensures var own := RecordsIn(env, ring, session, last).value.metadata;
            HasMetadata(env, ring, session, rows, meta)
            <==> own == Some(meta) || (own.None? && HasMetadata(env, ring, session, before, meta))
        {
          MetadataSnoc(env, ring, session, rows, meta);
        }
      }
    }
  }

  lemma NoMetadata(env: Env, ring: Keyring, session: string)
    ensures forall meta :: !HasMetadata(env, ring, session, [], meta)
  {
  }

  lemma AllParseSnoc(env: Env, ring: Keyring, session: string, rows: seq<ChunkRow>)
    requires rows != []
    ensures AllParse(env, ring, session, rows)
       <==> AllParse(env, ring, session, rows[..|rows| - 1]) && RecordsIn(env, ring, session, rows[|rows| - 1]).Ok?
  {
    hide RecordsIn;
    var before := rows[..|rows| - 1];
    assert forall i :: 0 <= i < |before| ==> before[i] == rows[i];
  }

  /** A session can be rebuilt exactly when its chunks are a whole archive up to its offset. */
  lemma TargetIsWhole(env: Env, ring: Keyring, session: string, rows: seq<ChunkRow>, nextOffset: nat, t: Rebuilt)
    ensures Target(env, ring, session, rows, nextOffset) == Some(t)
       <==> WholeArchive(env, ring, session, rows, nextOffset, t.meta)
            && t.state == StateOf(env.hasher, Admin.Contents(env, ring, rows))
  {
    hide ReadBack, Admin.Intact, AllParse, HasMetadata, Admin.Contents, StateOf;
    ReadBackIsIntact(env, ring, session, rows);
  }

  /**
   * What a backfill does to session `k`, in any state of the tables. When it was pending and is not any more, its
   * chunks in offset order are a whole archive up to its offset, and it has the hash state of their joined
   * plaintexts and their metadata. When its chunks are no such archive, or it was not pending, it is as before.
   */
  ghost predicate RebuiltFromRows(env: Env, ring: Keyring, before: Db, after: Db, k: Key, rows: seq<ChunkRow>)
    requires k in before.sessions && k in after.sessions
  {
    var row, now := before.sessions[k], after.sessions[k];
    var pending := row.hashState.None? || row.metadataVersion < 1;
    && SortedBy(StartOf, rows) && multiset(rows) == multiset(ChunksOf(before.chunks, k))
    && (pending && now.hashState.Some? && now.metadataVersion >= 1 ==>
          && WholeArchive(env, ring, k.session, rows, row.nextOffset, now.meta)
          && now == row.(meta := now.meta, metadataVersion := 1,
                         hashState := Some(StateOf(env.hasher, Admin.Contents(env, ring, rows)))))
    && (!pending || (forall meta :: !WholeArchive(env, ring, k.session, rows, row.nextOffset, meta)) ==> now == row)
    && (now == row || (now.hashState.Some? && now.metadataVersion >= 1))
  }

  lemma BackfilledFromRows(env: Env, ring: Keyring, before: Db, after: Db, done: set<Key>, k: Key)
    requires BackfilledIn(env, ring, before, after, done) && k in before.sessions
    ensures RebuiltFromRows(env, ring, before, after, k, ArchivedChunks(before, k))
  {
    hide WholeArchive, Target, SortBy, ChunksOf, SortedBy, Admin.Contents, StateOf;
    var rows := ArchivedChunks(before, k);
    SortBySorts(StartOf, ChunksOf(before.chunks, k));
    if k in done {
      TargetIsWhole(env, ring, k.session, rows, before.sessions[k].nextOffset, TargetOf(env, ring, before, k).value);
    }
  }

  /** The same of every session at once. */
  ghost predicate AllRebuiltFromRows(env: Env, ring: Keyring, before: Db, after: Db) {
    && before.sessions.Keys == after.sessions.Keys
    && forall k :: k in before.sessions ==> RebuiltFromRows(env, ring, before, after, k, ArchivedChunks(before, k))
  }

  lemma AllFromRows(env: Env, ring: Keyring, before: Db, after: Db, done: set<Key>)
    requires BackfilledIn(env, ring, before, after, done)
    ensures AllRebuiltFromRows(env, ring, before, after)
  {
    hide RebuiltFromRows, ArchivedChunks, TargetOf, Filled;
    forall k | k in before.sessions
      ensures RebuiltFromRows(env, ring, before, after, k, ArchivedChunks(before, k))
    {
      BackfilledFromRows(env, ring, before, after, done, k);
    }
  }

  /** The chunks of session `k` are no whole archive. */
  ghost predicate NotWhole(env: Env, ring: Keyring, db: Db, k: Key)
    requires k in db.sessions
  {
    forall meta :: !WholeArchive(env, ring, k.session, ArchivedChunks(db, k), db.sessions[k].nextOffset, meta)
  }

  lemma StoppedIsNotWhole(env: Env, ring: Keyring, db: Db, k: Key)
    requires k in db.sessions
    ensures TargetOf(env, ring, db, k).None? <==> NotWhole(env, ring, db, k)
  {
    hide WholeArchive, Target, ArchivedChunks;
    var rows, nextOffset := ArchivedChunks(db, k), db.sessions[k].nextOffset;
    if t: Rebuilt :| Target(env, ring, k.session, rows, nextOffset) == Some(t) {
      TargetIsWhole(env, ring, k.session, rows, nextOffset, t);
    }
    if meta :| WholeArchive(env, ring, k.session, rows, nextOffset, meta) {
      TargetIsWhole(env, ring, k.session, rows, nextOffset,
                    Rebuilt(StateOf(env.hasher, Admin.Contents(env, ring, rows)), meta));
    }
  }

  /** The keys of the first `n` pending sessions. */
  function Handled(pending: seq<PendingSession>, n: nat): set<Key>
    requires n <= |pending|
  {
    set i | 0 <= i < n :: pending[i].key
  }

  lemma HandledNext(pending: seq<PendingSession>, i: nat, next: nat)
    requires i < |pending| && next == i + 1
    ensures Handled(pending, next) == Handled(pending, i) + {pending[i].key}
  {
  }

  lemma FillOneMore(env: Env, ring: Keyring, before: Db, now: Db, after: Db, done: set<Key>, k: Key)
    requires BackfilledIn(env, ring, before, now, done)
    requires k !in done && k in before.sessions && IsPending(before.sessions[k]) && TargetOf(env, ring, before, k).Some?
    requires after ==
      now.(sessions := now.sessions[k := Filled(before.sessions[k], TargetOf(env, ring, before, k).value)])
    ensures BackfilledIn(env, ring, before, after, done + {k})
  {
    hide TargetOf;
  }

  /**
   * `backfillSessions`. On success every pending session has been rebuilt and none is pending. On failure
   * the session it stopped at is unchanged and still pending, and its chunks are no whole archive; those with a
   * smaller id have been rebuilt, those with a larger id have not been touched. Nothing but session rows ever
   * changes, and a session is only ever rebuilt from the rows of a whole archive, in any state of the tables.
   */
  method BackfillSessions(server: Server) returns (r: Result<bool, RebuildError>, ghost done: set<Key>,
                          ghost stopped: Option<Key>)
    requires SessionIdsOk(server.store.Snapshot())
    modifies server.store`sessions
    ensures BackfilledIn(server.store.env, server.ring, old(server.store.Snapshot()), server.store.Snapshot(), done)
    ensures AllRebuiltFromRows(server.store.env, server.ring, old(server.store.Snapshot()), server.store.Snapshot())
    ensures r.Ok? ==>
      forall k :: k in server.store.sessions ==>
        server.store.sessions[k].hashState.Some? && server.store.sessions[k].metadataVersion >= 1
    ensures r.Ok? <==> stopped.None?
    ensures r.Err? ==>
      var before, k := old(server.store.Snapshot()), stopped.value;
      && k in before.sessions && IsPending(before.sessions[k]) && k !in done
      && NotWhole(server.store.env, server.ring, before, k)
      && forall l :: l in before.sessions && IsPending(before.sessions[l]) && l != k ==>
           (l in done <==> before.sessions[l].id < before.sessions[k].id)
  {
    hide Target, TargetOf, Filled, ReadBack, SortBy, ChunksOf, IndexedOf, ListsPending, SessionIdsOk,
         Handled, ArchivedChunks, AllRebuiltFromRows, NotWhole;
    ghost var before := server.store.Snapshot();
    done, stopped := {}, None;
    var pending := server.store.PendingBackfills();
    var i := 0;
    NothingHandled(server.store.env, server.ring, before, pending);
    while i < |pending|
      invariant 0 <= i <= |pending|
      invariant done == Handled(pending, i) && stopped.None?
      invariant BackfilledIn(server.store.env, server.ring, before, server.store.Snapshot(), done)
    {
      var k := pending[i].key;
      AtTurn(server.store.env, server.ring, before, server.store.Snapshot(), pending, i);
      var rebuilt := RebuildSession(server, pending[i]);
      if rebuilt.Err? {
        stopped := Some(k);
        StoppedBetween(before, pending, i);
        StoppedIsNotWhole(server.store.env, server.ring, before, k);
        AllFromRows(server.store.env, server.ring, before, server.store.Snapshot(), done);
        return Err(rebuilt.error), done, stopped;
      }
      ghost var now := server.store.Snapshot();
      var finished := server.store.FinishBackfill(pending[i], rebuilt.value.state, rebuilt.value.meta);
      assert finished.Ok?;
      FilledIs(now.sessions[k], rebuilt.value);
      FillOneMore(server.store.env, server.ring, before, now, server.store.Snapshot(), done, k);
      HandledNext(pending, i, i + 1);
      done := Handled(pending, i + 1);
      i := i + 1;
    }
    AllHandled(server.store.env, server.ring, before, server.store.Snapshot(), pending);
    AllFromRows(server.store.env, server.ring, before, server.store.Snapshot(), done);
    return Ok(true), done, stopped;
  }

  lemma NothingHandled(env: Env, ring: Keyring, db: Db, pending: seq<PendingSession>)
    ensures Handled(pending, 0) == {} && BackfilledIn(env, ring, db, db, {})
  {
    hide TargetOf;
  }

  lemma FilledIs(row: SessionRow, t: Rebuilt)
    ensures Filled(row, t) == row.(meta := t.meta, hashState := Some(t.state), metadataVersion := 1)
  {
  }

  /** What holds when the turn of pending session `i` comes. */
  lemma AtTurn(env: Env, ring: Keyring, before: Db, now: Db, pending: seq<PendingSession>, i: nat)
    requires ListsPending(before.sessions, pending, {}) && i < |pending|
    requires BackfilledIn(env, ring, before, now, Handled(pending, i))
    ensures var k := pending[i].key;
      && k !in Handled(pending, i)
      && k in before.sessions && k in now.sessions && now.sessions[k] == before.sessions[k]
      && IsPending(before.sessions[k]) && pending[i].nextOffset == before.sessions[k].nextOffset
      && ArchivedChunks(now, k) == ArchivedChunks(before, k)
      && TargetOf(env, ring, before, k)
         == Target(env, ring, k.session, ArchivedChunks(now, k), pending[i].nextOffset)
  {
    hide Target, SortBy, ChunksOf;
  }

  /** Among the pending sessions, those handled before number `i` are those with smaller ids. */
  lemma StoppedBetween(db: Db, pending: seq<PendingSession>, i: nat)
    requires ListsPending(db.sessions, pending, {}) && SessionIdsOk(db) && i < |pending|
    ensures forall l :: l in db.sessions && IsPending(db.sessions[l]) && l != pending[i].key ==>
      (l in Handled(pending, i) <==> db.sessions[l].id < db.sessions[pending[i].key].id)
  {
    forall l | l in db.sessions && IsPending(db.sessions[l]) && l != pending[i].key
      ensures l in Handled(pending, i) <==> db.sessions[l].id < db.sessions[pending[i].key].id
    {
      assert Lists(pending, l);
      var j :| 0 <= j < |pending| && pending[j].key == l;
      assert l in Handled(pending, i) <==> j < i;
    }
  }

  lemma AllHandled(env: Env, ring: Keyring, before: Db, after: Db, pending: seq<PendingSession>)
    requires ListsPending(before.sessions, pending, {})
    requires BackfilledIn(env, ring, before, after, Handled(pending, |pending|))
    ensures forall k :: k in after.sessions ==> !IsPending(after.sessions[k])
  {
    hide TargetOf;
    forall k | k in after.sessions
      ensures !IsPending(after.sessions[k])
    {
      if IsPending(before.sessions[k]) {
        assert Lists(pending, k);
      }
    }
  }

  // Backfill against the incremental path.

  /** Chunk rows span what they say they hold: the guard of every upload, which the backfill does not repeat. */
  ghost predicate Spanned(rows: seq<ChunkRow>) {
    forall i :: 0 <= i < |rows| ==> rows[i].end == rows[i].start + rows[i].size
  }

  /** Metadata comes from the first record of a session only. */
  lemma {:induction false} NoMetadataLater(d: Decoder, lines: seq<Bytes>, base: nat, session: string)
    requires base > 0 && ParseLines(d, lines, base, session).Ok?
    ensures ParseLines(d, lines, base, session).value.metadata.None?
  {
    if lines != [] { NoMetadataLater(d, lines[1..], base + |lines[0]|, session); }
  }

  lemma MetadataSoFar(env: Env, ring: Keyring, session: string, rows: seq<ChunkRow>, v: View, c: ChunkRow,
                      plain: Bytes, p: Parsed)
    requires ReplayRows(env, ring, session, rows) == Some(v) && c.start == |v.archive|
    requires ParseChunkResult(env.decoder, plain, c.start, session) == Ok(p)
    ensures Join(v.parsed, p).metadata == if p.metadata.Some? then p.metadata else v.parsed.metadata
  {
    if rows != [] {
      ReplayIsOneParse(env, ring, session, rows);
      NoMetadataLater(env.decoder, LinesOf(plain), c.start, session);
    } else {
      assert v == EMPTY_VIEW;
    }
  }

  /** How far the backfill is when the reference reading is at `v`. */
  function ProgressOf(env: Env, v: View): Progress {
    Progress(StateOf(env.hasher, v.archive), |v.archive|, v.parsed.metadata)
  }

  /** One chunk of the backfill is one chunk of the reference reading. */
  lemma ReadChunkIsAddChunk(env: Env, ring: Keyring, session: string, rows: seq<ChunkRow>, v: View, c: ChunkRow)
    requires ReplayRows(env, ring, session, rows) == Some(v) && c.end == c.start + c.size
    ensures ReadChunk(env, ring, session, ProgressOf(env, v), c).Some? <==> AddChunk(env, ring, session, v, c).Some?
    ensures AddChunk(env, ring, session, v, c).Some? ==>
      ReadChunk(env, ring, session, ProgressOf(env, v), c)
      == Some(ProgressOf(env, AddChunk(env, ring, session, v, c).value))
  {
    hide ParseChunkResult, Sha, Join, Tag, ReplayRows, Open;
    var found := Open(env.cipher, ring, c.keyId, c.ciphertext);
    if found.Some? && c.start == |v.archive| {
      ExtendConcat(env.hasher, env.hasher.init, v.archive, found.value);
      var parsed := ParseChunkResult(env.decoder, found.value, c.start, session);
      if parsed.Ok? { MetadataSoFar(env, ring, session, rows, v, c, found.value, parsed.value); }
    }
  }

  /**
   * The backfill is the reference reading of the archive, except that it takes the ends of chunks on trust: the
   * reference reading succeeds exactly when the backfill does and every chunk ends where its size says; and then
   * the backfill arrives at the hash state, the length and the metadata of the whole text.
   */
  lemma ReadBackIsReplay(env: Env, ring: Keyring, session: string, rows: seq<ChunkRow>)
    ensures ReplayRows(env, ring, session, rows).Some? <==> ReadBack(env, ring, session, rows).Some? && Spanned(rows)
    ensures ReplayRows(env, ring, session, rows).Some? ==>
      ReadBack(env, ring, session, rows) == Some(ProgressOf(env, ReplayRows(env, ring, session, rows).value))
  {
    hide ReadBack, ReplayRows, Spanned, Tiles, ProgressOf;
    if ReplayRows(env, ring, session, rows).Some? {
      ReplayTiles(env, ring, session, rows);
      TilesSpan(env, ring, rows, ReplayRows(env, ring, session, rows).value.archive);
    }
    if Spanned(rows) { SpannedReadBack(env, ring, session, rows); }
  }

  lemma {:induction false} SpannedReadBack(env: Env, ring: Keyring, session: string, rows: seq<ChunkRow>)
    requires Spanned(rows)
    ensures ReadBack(env, ring, session, rows).Some? <==> ReplayRows(env, ring, session, rows).Some?
    ensures ReplayRows(env, ring, session, rows).Some? ==>
      ReadBack(env, ring, session, rows) == Some(ProgressOf(env, ReplayRows(env, ring, session, rows).value))
  {
    if rows != [] {
      hide ReadChunk, AddChunk, ProgressOf;
      var before, last := rows[..|rows| - 1], rows[|rows| - 1];
      assert last.end == last.start + last.size;
      SpannedReadBack(env, ring, session, before);
      var v := ReplayRows(env, ring, session, before);
      if v.Some? { ReadChunkIsAddChunk(env, ring, session, before, v.value, last); }
    }
  }

  lemma TilesSpan(env: Env, ring: Keyring, rows: seq<ChunkRow>, archive: Bytes)
    requires Tiles(env, ring, rows, archive)
    ensures Spanned(rows)
  {
  }

  /**
   * In every state that satisfies the invariant each session can be rebuilt, and what is rebuilt is what
   * chunk-by-chunk uploads would have stored: the hash state of the archive and the metadata of its first record.
   */
  lemma RebuildMatchesUploads(env: Env, ring: Keyring, db: Db, k: Key)
    requires Coherent(env.decoder) && KeyOk(env, ring, db, k) && k in db.sessions
    ensures var meta := ViewOf(env, ring, db, k).parsed.metadata;
      && meta.Some?
      && TargetOf(env, ring, db, k) == Some(Rebuilt(StateOf(env.hasher, ArchiveOf(env, ring, db, k)), meta.value))
    ensures !IsPending(db.sessions[k]) ==>
      && db.sessions[k].hashState == Some(TargetOf(env, ring, db, k).value.state)
      && db.sessions[k].meta == TargetOf(env, ring, db, k).value.meta
  {
    hide ReplayRows, SortBy, ReadBack, Tiles;
    ArchiveIsTiled(env, ring, db, k);
    ReadBackIsReplay(env, ring, k.session, ChunksOf(db.chunks, k));
    ReplayPositions(env, ring, k.session, ChunksOf(db.chunks, k));
  }

  /** A backfill, finished or not, keeps the invariant; so it can be stopped and run again at any point. */
  lemma BackfillKeepsInvariant(env: Env, ring: Keyring, before: Db, after: Db, done: set<Key>)
    requires Coherent(env.decoder) && Inv(env, ring, before) && BackfilledIn(env, ring, before, after, done)
    ensures Inv(env, ring, after)
  {
    hide ReplayRows, TargetOf, Filled, RowOk, TablesOk;
    forall k
      ensures KeyOk(env, ring, after, k)
    {
      assert KeyOk(env, ring, before, k);
      if k in done {
        FilledRowOk(env, ring, before, k);
      }
    }
    SameEventTables(env.trim, before, after);
    FilledIds(env, ring, before, after, done);
  }

  lemma FilledRowOk(env: Env, ring: Keyring, db: Db, k: Key)
    requires Coherent(env.decoder) && KeyOk(env, ring, db, k) && k in db.sessions
    ensures TargetOf(env, ring, db, k).Some?
    ensures RowOk(env, Filled(db.sessions[k], TargetOf(env, ring, db, k).value), ViewOf(env, ring, db, k))
  {
    hide ReplayRows, TargetOf, StateOf;
    RebuildMatchesUploads(env, ring, db, k);
    ReplayPositions(env, ring, k.session, ChunksOf(db.chunks, k));
  }

  lemma SameEventTables(trim: Bytes -> Bytes, before: Db, after: Db)
    requires TablesOk(trim, before) && after == before.(sessions := after.sessions)
    ensures TablesOk(trim, after)
  {
  }

  lemma FilledIds(env: Env, ring: Keyring, before: Db, after: Db, done: set<Key>)
    requires SessionIdsOk(before) && BackfilledIn(env, ring, before, after, done)
    ensures SessionIdsOk(after)
  {
    hide TargetOf;
  }
}
