/** What the store's queries return in states that satisfy the invariant. */
module Queries {
  import opened Basics
  import opened Hashing
  import opened Invariant
  import opened Ordering
  import opened Paging
  import opened Records
  import opened Replay
  import opened Store
  import opened Tables
  import opened Vault

  /** The event query returns one parse of the whole archive, and it is readable page by page. */
  lemma EventsAreOneParse(env: Env, ring: Keyring, db: Db, k: Key)
    requires Coherent(env.decoder) && KeyOk(env, ring, db, k)
    ensures EventsOf(db, k) == ViewOf(env, ring, db, k).parsed.events
    ensures Readable(EventsOf(db, k))
  {
    hide ReplayRows, RowOk;
    var v := ViewOf(env, ring, db, k);
    ReplayIndexEvents(env, ring, k.session, ChunksOf(db.chunks, k));
    ReplayPositions(env, ring, k.session, ChunksOf(db.chunks, k));
    SortByKeeps(AtOf, v.parsed.events);
  }

  /**
   * The derived index is a function of the archive alone: for every known session the stored events, last
   * activity and (once backfilled) metadata are those of one parse of the whole archived text.
   */
  lemma IndexIsOneParse(env: Env, ring: Keyring, db: Db, k: Key)
    requires Coherent(env.decoder) && KeyOk(env, ring, db, k) && k in db.sessions
    ensures var whole := ParseChunkResult(env.decoder, ArchiveOf(env, ring, db, k), 0, k.session);
      && whole.Ok?
      && EventsOf(db, k) == whole.value.events
      && db.sessions[k].lastActivity == whole.value.lastActivity
      && whole.value.metadata.Some?
      && (db.sessions[k].metadataVersion >= 1 ==> db.sessions[k].meta == whole.value.metadata.value)
  {
    hide ReplayRows, ParseChunkResult;
    EventsAreOneParse(env, ring, db, k);
    ReplayIsOneParse(env, ring, k.session, ChunksOf(db.chunks, k));
    ReplayPositions(env, ring, k.session, ChunksOf(db.chunks, k));
  }

  /** Stored chunks tile the archive, and the chunk query returns them in that order. */
  lemma ArchiveIsTiled(env: Env, ring: Keyring, db: Db, k: Key)
    requires KeyOk(env, ring, db, k)
    ensures Tiles(env, ring, ChunksOf(db.chunks, k), ArchiveOf(env, ring, db, k))
    ensures SortBy(StartOf, ChunksOf(db.chunks, k)) == ChunksOf(db.chunks, k)
    ensures k in db.sessions ==> db.sessions[k].nextOffset == |ArchiveOf(env, ring, db, k)|
    ensures k in db.sessions && db.sessions[k].hashState.Some? ==>
      db.sessions[k].hashState.value == StateOf(env.hasher, ArchiveOf(env, ring, db, k))
  {
    var rows, archive := ChunksOf(db.chunks, k), ArchiveOf(env, ring, db, k);
    ReplayTiles(env, ring, k.session, rows);
    hide ReplayRows, Tiles;
    forall i, j | 0 <= i < j < |rows|
      ensures StartOf(rows[i]) <= StartOf(rows[j])
    {
      TilesOrdered(env, ring, rows, archive, i, j);
      TileSpans(env, ring, rows, archive, i);
    }
    SortByKeeps(StartOf, rows);
  }

  lemma TileSpans(env: Env, ring: Keyring, rows: seq<ChunkRow>, archive: Bytes, i: nat)
    requires Tiles(env, ring, rows, archive) && i < |rows|
    ensures rows[i].start < rows[i].end <= |archive|
    ensures archive[rows[i].start..rows[i].end] == PlainOf(env, ring, rows[i])
  {
  }

  /** A checkpoint is the length and the digest of the archive; only a session still to be backfilled has none. */
  lemma CheckpointIsPrefix(env: Env, ring: Keyring, db: Db, k: Key)
    requires KeyOk(env, ring, db, k)
    ensures CheckpointOf(env, db, k)
      == if Ready(db, k)
         then Ok(Checkpoint(|ArchiveOf(env, ring, db, k)|, Sha(env.hasher, ArchiveOf(env, ring, db, k))))
         else Err(NoPrefixState)
  {
    if k !in db.sessions { UnknownIsEmpty(env, ring, db, k); }
  }

  /** Whole records only, and for a known session at least one. */
  lemma ArchiveIsAligned(env: Env, ring: Keyring, db: Db, k: Key)
    requires KeyOk(env, ring, db, k)
    ensures LineAligned(ArchiveOf(env, ring, db, k))
    ensures k in db.sessions <==> ArchiveOf(env, ring, db, k) != []
  {
    var rows := ChunksOf(db.chunks, k);
    if rows != [] { ReplayIsOneParse(env, ring, k.session, rows); }
  }

  /** The last event row at a position decides; with unique positions there is only one. */
  lemma {:induction false} LocateFinds(rows: seq<EventRow>, chunks: seq<ChunkRow>, k: Key, i: nat)
    requires i < |IndexedOf(rows, k)|
    requires forall j :: 0 <= j < |IndexedOf(rows, k)| && j != i ==>
      IndexedOf(rows, k)[j].event.at != IndexedOf(rows, k)[i].event.at
    ensures var x := IndexedOf(rows, k)[i];
      LocateOutput(rows, chunks, k, x.event.at)
      == if x.event.kind == ToolOutputKind then FindChunk(chunks, k, x.chunkStart) else None
  {
    var before, last := rows[..|rows| - 1], rows[|rows| - 1];
    var own := IndexedOf(before, k);
    hide FindChunk;
    if i < |own| {
      assert forall j :: 0 <= j < |own| ==> IndexedOf(rows, k)[j] == own[j];
      if last.key == k { assert IndexedOf(rows, k)[|own|].event == last.event; }
      LocateFinds(before, chunks, k, i);
    } else {
      assert forall j :: 0 <= j < |own| ==> IndexedOf(rows, k)[j] == own[j];
      LocateMisses(before, chunks, k, last.event.at);
    }
  }

  lemma {:induction false} LocateMisses(rows: seq<EventRow>, chunks: seq<ChunkRow>, k: Key, at: nat)
    requires forall j :: 0 <= j < |IndexedOf(rows, k)| ==> IndexedOf(rows, k)[j].event.at != at
    ensures LocateOutput(rows, chunks, k, at) == None
  {
    if rows != [] {
      var before, last := rows[..|rows| - 1], rows[|rows| - 1];
      var own := IndexedOf(before, k);
      assert forall j :: 0 <= j < |own| ==> IndexedOf(rows, k)[j] == own[j];
      if last.key == k { assert IndexedOf(rows, k)[|own|].event == last.event; }
      LocateMisses(before, chunks, k, at);
    }
  }
}
