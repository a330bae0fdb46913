/** The invariant of the store: what every reachable state of the four tables satisfies. */
module Invariant {
  import opened Basics
  import opened Hashing
  import opened Records
  import opened Replay
  import opened Tables
  import opened Vault

  /** What the archive of `k` amounts to; empty for a session the store does not know. */
  function ViewOf(env: Env, ring: Keyring, db: Db, k: Key): View {
    var r := ReplayRows(env, ring, k.session, ChunksOf(db.chunks, k));
    if r.Some? then r.value else EMPTY_VIEW
  }

  function ArchiveOf(env: Env, ring: Keyring, db: Db, k: Key): Bytes {
    ViewOf(env, ring, db, k).archive
  }

  /** A session row agrees with the archive. A row still to be backfilled may lack its hash state or metadata. */
  predicate RowOk(env: Env, row: SessionRow, v: View) {
    && row.nextOffset == |v.archive|
    && (row.hashState.Some? ==> row.hashState.value == StateOf(env.hasher, v.archive))
    && (row.metadataVersion >= 1 ==> v.parsed.metadata == Some(row.meta))
    && row.lastActivity == v.parsed.lastActivity
  }

  /** The rows of one session agree: row, chunks and events all derive from one replayable archive. */
  predicate KeyOk(env: Env, ring: Keyring, db: Db, k: Key) {
    var rows := ChunksOf(db.chunks, k);
    var r := ReplayRows(env, ring, k.session, rows);
    && r.Some?
    && (k in db.sessions <==> rows != [])
    && IndexedOf(db.events, k) == r.value.index
    && (k in db.sessions ==> RowOk(env, db.sessions[k], r.value))
  }

  function SearchOf(trim: Bytes -> Bytes, rows: seq<EventRow>): seq<SearchRow> {
    if rows == [] then []
    else SearchOf(trim, rows[..|rows| - 1]) + SearchRows(trim, rows[|rows| - 1])
  }

  ghost predicate EventIdsOk(rows: seq<EventRow>, last: nat) {
    && (forall i, j :: 0 <= i < j < |rows| ==> rows[i].id < rows[j].id)
    && (forall i :: 0 <= i < |rows| ==> 0 < rows[i].id <= last)
  }

  ghost predicate SessionIdsOk(db: Db) {
    && (forall k :: k in db.sessions ==> 0 < db.sessions[k].id <= db.lastSessionId)
    && (forall k, l :: k in db.sessions && l in db.sessions && db.sessions[k].id == db.sessions[l].id ==> k == l)
  }

  /** Row ids are unique and the search table holds exactly the search rows of the event table. */
  ghost predicate TablesOk(trim: Bytes -> Bytes, db: Db) {
    EventIdsOk(db.events, db.lastEventId) && db.search == SearchOf(trim, db.events)
  }

  ghost predicate Inv(env: Env, ring: Keyring, db: Db) {
    && (forall k :: KeyOk(env, ring, db, k))
    && TablesOk(env.trim, db)
    && SessionIdsOk(db)
  }

  lemma EmptyDbInv(env: Env, ring: Keyring)
    ensures Inv(env, ring, EMPTY_DB)
  {
  }

  // Selection and insertion.

  lemma ChunksOfSnoc(rows: seq<ChunkRow>, c: ChunkRow, k: Key)
    ensures ChunksOf(rows + [c], k) == ChunksOf(rows, k) + if c.key == k then [c] else []
  {
    assert (rows + [c])[..|rows|] == rows;
  }

  lemma IndexedOfSnoc(rows: seq<EventRow>, r: EventRow, k: Key)
    ensures IndexedOf(rows + [r], k) == IndexedOf(rows, k) + if r.key == k then [Indexed(r.chunkStart, r.event)] else []
  {
    assert (rows + [r])[..|rows|] == rows;
  }

  lemma {:induction false} ChunksOfHaveKey(rows: seq<ChunkRow>, k: Key)
    ensures forall i :: 0 <= i < |ChunksOf(rows, k)| ==> ChunksOf(rows, k)[i].key == k
  {
    if rows != [] { ChunksOfHaveKey(rows[..|rows| - 1], k); }
  }

  /** Looking a chunk up among all rows is looking it up among the session's own. */
  lemma {:induction false} FindChunkAmongOwn(rows: seq<ChunkRow>, k: Key, start: nat)
    ensures FindChunk(rows, k, start) == FindChunk(ChunksOf(rows, k), k, start)
  {
    if rows != [] {
      var before, last := rows[..|rows| - 1], rows[|rows| - 1];
      FindChunkAmongOwn(before, k, start);
      if last.key == k {
        assert ChunksOf(rows, k)[..|ChunksOf(rows, k)| - 1] == ChunksOf(before, k);
      } else {
        assert ChunksOf(rows, k) == ChunksOf(before, k);
      }
    }
  }

  lemma {:induction false} FindChunkHit(rows: seq<ChunkRow>, k: Key, i: nat)
    requires i < |rows|
    requires forall j :: 0 <= j < |rows| ==> rows[j].key == k && (j != i ==> rows[j].start != rows[i].start)
    ensures FindChunk(rows, k, rows[i].start) == Some(rows[i])
  {
    if i < |rows| - 1 { FindChunkHit(rows[..|rows| - 1], k, i); }
  }

  lemma {:induction false} FindChunkMiss(rows: seq<ChunkRow>, k: Key, start: nat)
    ensures FindChunk(rows, k, start).None? ==>
      forall i :: 0 <= i < |rows| && rows[i].key == k ==> rows[i].start != start
    ensures FindChunk(rows, k, start).Some? ==>
      exists i :: 0 <= i < |rows| && rows[i] == FindChunk(rows, k, start).value
  {
    if rows != [] { FindChunkMiss(rows[..|rows| - 1], k, start); }
  }

  /** The chunk lookup of `PutChunk`, on a session whose chunks tile its archive. */
  lemma FindTile(env: Env, ring: Keyring, db: Db, k: Key, i: nat)
    requires KeyOk(env, ring, db, k) && i < |ChunksOf(db.chunks, k)|
    ensures FindChunk(db.chunks, k, ChunksOf(db.chunks, k)[i].start) == Some(ChunksOf(db.chunks, k)[i])
  {
    hide ReplayRows;
    var rows := ChunksOf(db.chunks, k);
    var archive := ArchiveOf(env, ring, db, k);
    ReplayTiles(env, ring, k.session, rows);
    ChunksOfHaveKey(db.chunks, k);
    FindChunkAmongOwn(db.chunks, k, rows[i].start);
    forall j | 0 <= j < |rows| && j != i
      ensures rows[j].start != rows[i].start
    {
      if i < j { TilesOrdered(env, ring, rows, archive, i, j); } else { TilesOrdered(env, ring, rows, archive, j, i); }
    }
    FindChunkHit(rows, k, i);
  }

  /** The lookup finds only tiles, and none at or past the end of the archive. */
  lemma FoundIsTile(env: Env, ring: Keyring, db: Db, k: Key, start: nat) returns (i: nat)
    requires KeyOk(env, ring, db, k) && FindChunk(db.chunks, k, start).Some?
    ensures i < |ChunksOf(db.chunks, k)| && ChunksOf(db.chunks, k)[i] == FindChunk(db.chunks, k, start).value
    ensures start < |ArchiveOf(env, ring, db, k)|
  {
    var rows := ChunksOf(db.chunks, k);
    FindChunkAmongOwn(db.chunks, k, start);
    FindChunkMiss(rows, k, start);
    ReplayTiles(env, ring, k.session, rows);
    i :| 0 <= i < |rows| && rows[i] == FindChunk(rows, k, start).value;
  }

  lemma {:induction false} HasEventIsIndexed(rows: seq<EventRow>, k: Key, at: nat)
    ensures HasEvent(rows, k, at) ==> exists i :: 0 <= i < |IndexedOf(rows, k)| && IndexedOf(rows, k)[i].event.at == at
  {
    if rows != [] && HasEvent(rows, k, at) {
      var before, last := rows[..|rows| - 1], rows[|rows| - 1];
      HasEventIsIndexed(before, k, at);
      var n := |IndexedOf(before, k)|;
      if last.key == k && last.event.at == at {
        assert IndexedOf(rows, k)[n].event.at == at;
      } else {
        var i :| 0 <= i < |rows| && rows[i].key == k && rows[i].event.at == at;
        assert before[i] == rows[i];
        var j :| 0 <= j < n && IndexedOf(before, k)[j].event.at == at;
        assert IndexedOf(rows, k)[j] == IndexedOf(before, k)[j];
      }
    }
  }

  lemma SearchOfSnoc(trim: Bytes -> Bytes, rows: seq<EventRow>, r: EventRow)
    ensures SearchOf(trim, rows + [r]) == SearchOf(trim, rows) + SearchRows(trim, r)
  {
    assert (rows + [r])[..|rows|] == rows;
  }

  /** One event at a fresh position. */
  lemma InsertEventAppends(trim: Bytes -> Bytes, db: Db, k: Key, chunkStart: nat, e: Event)
    requires TablesOk(trim, db) && !HasEvent(db.events, k, e.at)
    ensures var r := InsertEvent(trim, db, k, chunkStart, e);
      && r.Some?
      && TablesOk(trim, r.value)
      && r.value == db.(events := r.value.events, search := r.value.search, lastEventId := db.lastEventId + 1)
      && db.events <= r.value.events
      && (forall l :: IndexedOf(r.value.events, l)
                   == IndexedOf(db.events, l) + if l == k then [Indexed(chunkStart, e)] else [])
      && (forall at :: HasEvent(r.value.events, k, at) ==> at == e.at || HasEvent(db.events, k, at))
  {
    hide SearchOf, SearchRows, IndexedOf;
    var row := EventRow(db.lastEventId + 1, k, chunkStart, e);
    SearchOfSnoc(trim, db.events, row);
    forall l
      ensures IndexedOf(db.events + [row], l)
           == IndexedOf(db.events, l) + if l == k then [Indexed(chunkStart, e)] else []
    {
      IndexedOfSnoc(db.events, row, l);
    }
  }

  /**
   * Inserting fresh, distinct positions never hits the UNIQUE constraint: it appends the events, in order
   * and under new ids, with their search rows, and touches nothing of any other session.
   */
  lemma {:induction false} InsertEventsAppends(trim: Bytes -> Bytes, db: Db, k: Key, chunkStart: nat, es: seq<Event>)
    requires TablesOk(trim, db)
    requires forall i :: 0 <= i < |es| ==> !HasEvent(db.events, k, es[i].at)
    requires forall i, j :: 0 <= i < j < |es| ==> es[i].at != es[j].at
    ensures var r := InsertEvents(trim, db, k, chunkStart, es);
      && r.Some?
      && TablesOk(trim, r.value)
      && r.value.sessions == db.sessions && r.value.chunks == db.chunks && r.value.lastSessionId == db.lastSessionId
      && r.value.lastEventId == db.lastEventId + |es|
      && db.events <= r.value.events
      && IndexedOf(r.value.events, k) == IndexedOf(db.events, k) + Tag(chunkStart, es)
      && forall l :: l != k ==> IndexedOf(r.value.events, l) == IndexedOf(db.events, l)
    decreases |es|
  {
    hide TablesOk, HasEvent, IndexedOf, InsertEvent;
    if es == [] {
      assert Tag(chunkStart, es) == [];
    } else {
      InsertEventAppends(trim, db, k, chunkStart, es[0]);
      var next := InsertEvent(trim, db, k, chunkStart, es[0]).value;
      assert forall i :: 0 <= i < |es[1..]| ==> es[1..][i] == es[i + 1];
      InsertEventsAppends(trim, next, k, chunkStart, es[1..]);
      assert [Indexed(chunkStart, es[0])] + Tag(chunkStart, es[1..]) == Tag(chunkStart, es);
      ConcatAssociative(IndexedOf(db.events, k), [Indexed(chunkStart, es[0])], Tag(chunkStart, es[1..]));
    }
  }

  /** A chunk row that passed the upload guards: it decrypts to `plain`, of the declared size, digest and index. */
  ghost predicate Uploaded(env: Env, ring: Keyring, c: ChunkRow, plain: Bytes, parsed: Parsed) {
    && Open(env.cipher, ring, c.keyId, c.ciphertext) == Some(plain)
    && c.end == c.start + |plain|
    && c.size == |plain|
    && c.sha == Sha(env.hasher, plain)
    && ParseChunkResult(env.decoder, plain, c.start, c.key.session) == Ok(parsed)
  }

  /** New events sit past every stored one. */
  lemma FreshPositions(env: Env, ring: Keyring, db: Db, c: ChunkRow, plain: Bytes, parsed: Parsed)
    requires Coherent(env.decoder) && KeyOk(env, ring, db, c.key) && Uploaded(env, ring, c, plain, parsed)
    requires c.start == |ArchiveOf(env, ring, db, c.key)|
    ensures forall i :: 0 <= i < |parsed.events| ==> !HasEvent(db.events, c.key, parsed.events[i].at)
    ensures forall i, j :: 0 <= i < j < |parsed.events| ==> parsed.events[i].at != parsed.events[j].at
  {
    hide ParseChunkResult, HasEvent, ReplayRows;
    var v := ViewOf(env, ring, db, c.key);
    var rows := ChunksOf(db.chunks, c.key);
    ChunkPositions(env.decoder, plain, c.start, c.key.session);
    ReplayPositions(env, ring, c.key.session, rows);
    ReplayIndexEvents(env, ring, c.key.session, rows);
    forall i | 0 <= i < |parsed.events|
      ensures !HasEvent(db.events, c.key, parsed.events[i].at)
    {
      HasEventIsIndexed(db.events, c.key, parsed.events[i].at);
      forall j | 0 <= j < |v.index|
        ensures v.index[j].event.at < parsed.events[i].at
      {
        assert EventsIn(v.index)[j] == v.index[j].event;
      }
    }
  }

  /** What an accepted upload does to the views of all sessions. */
  ghost predicate Appended(env: Env, ring: Keyring, db: Db, after: Db, c: ChunkRow, plain: Bytes, parsed: Parsed) {
    && ArchiveOf(env, ring, after, c.key) == ArchiveOf(env, ring, db, c.key) + plain
    && ChunksOf(after.chunks, c.key) == ChunksOf(db.chunks, c.key) + [c]
    && ViewOf(env, ring, after, c.key).index == ViewOf(env, ring, db, c.key).index + Tag(c.start, parsed.events)
    && after.sessions.Keys == db.sessions.Keys + {c.key}
    && SameElsewhere(db, after, c.key)
  }

  /** Everything the tables say about session `l` is the same. */
  ghost predicate SameSession(db: Db, after: Db, l: Key) {
    && ChunksOf(after.chunks, l) == ChunksOf(db.chunks, l)
    && IndexedOf(after.events, l) == IndexedOf(db.events, l)
    && (l in after.sessions <==> l in db.sessions)
    && (l in db.sessions ==> after.sessions[l] == db.sessions[l])
  }

  /** Nothing of any session other than `k` differs. */
  ghost predicate SameElsewhere(db: Db, after: Db, k: Key) {
    forall l :: l != k ==> SameSession(db, after, l)
  }

  lemma KeyOkElsewhere(env: Env, ring: Keyring, db: Db, after: Db, k: Key, l: Key)
    requires SameElsewhere(db, after, k) && l != k && KeyOk(env, ring, db, l)
    ensures KeyOk(env, ring, after, l)
  {
    assert SameSession(db, after, l);
  }

  /** An accepted chunk, replayed at the end of its session's archive. */
  lemma ReplayAppended(env: Env, ring: Keyring, db: Db, after: Db, c: ChunkRow, plain: Bytes, parsed: Parsed)
    requires KeyOk(env, ring, db, c.key) && Uploaded(env, ring, c, plain, parsed)
    requires c.start == |ArchiveOf(env, ring, db, c.key)|
    requires after.chunks == db.chunks + [c]
    ensures ReplayRows(env, ring, c.key.session, ChunksOf(after.chunks, c.key)).Some?
    ensures ChunksOf(after.chunks, c.key) == ChunksOf(db.chunks, c.key) + [c]
    ensures var v := ViewOf(env, ring, db, c.key);
      ViewOf(env, ring, after, c.key)
        == View(v.archive + plain, Join(v.parsed, parsed), v.index + Tag(c.start, parsed.events))
  {
    hide ParseChunkResult, Join, Tag, Sha;
    ChunksOfSnoc(db.chunks, c, c.key);
    ReplaySnoc(env, ring, c.key.session, ChunksOf(db.chunks, c.key), c);
  }

  lemma RowAdvances(env: Env, ring: Keyring, db: Db, c: ChunkRow, plain: Bytes, parsed: Parsed)
    requires KeyOk(env, ring, db, c.key) && Uploaded(env, ring, c, plain, parsed)
    requires c.start == |ArchiveOf(env, ring, db, c.key)| && (c.key in db.sessions || parsed.metadata.Some?)
    requires RowFor(env, db, c.key, parsed).hashState.Some?
    ensures var v := ViewOf(env, ring, db, c.key);
      RowOk(env, NewRow(env, RowFor(env, db, c.key, parsed), c, plain, parsed),
            View(v.archive + plain, Join(v.parsed, parsed), v.index + Tag(c.start, parsed.events)))
  {
    hide ParseChunkResult, Tag, IndexedOf, Before;
    var v := ViewOf(env, ring, db, c.key);
    ExtendConcat(env.hasher, env.hasher.init, v.archive, plain);
    LaterMonoid(v.parsed.lastActivity, parsed.lastActivity, parsed.lastActivity);
    LaterMonoid(parsed.lastActivity, v.parsed.lastActivity, parsed.lastActivity);
  }

  /** The rows written by an accepted upload are right again. */
  lemma AdvanceKeepsKey(env: Env, ring: Keyring, db: Db, indexed: Db, after: Db, c: ChunkRow, plain: Bytes,
                        parsed: Parsed)
    requires Coherent(env.decoder) && Inv(env, ring, db) && Uploaded(env, ring, c, plain, parsed)
    requires c.start == |ArchiveOf(env, ring, db, c.key)| && (c.key in db.sessions || parsed.metadata.Some?)
    requires RowFor(env, db, c.key, parsed).hashState.Some?
    requires InsertEvents(env.trim, db, c.key, c.start, parsed.events) == Some(indexed)
    requires after.chunks == db.chunks + [c] && after.events == indexed.events
    requires after.sessions == db.sessions[c.key := NewRow(env, RowFor(env, db, c.key, parsed), c, plain, parsed)]
    ensures KeyOk(env, ring, after, c.key) && Appended(env, ring, db, after, c, plain, parsed)
  {
    hide ParseChunkResult, Tag, InsertEvents, HasEvent, IndexedOf, TablesOk, RowOk, RowFor, NewRow, ReplayRows, Join,
         Open;
    assert KeyOk(env, ring, db, c.key);
    FreshPositions(env, ring, db, c, plain, parsed);
    InsertEventsAppends(env.trim, db, c.key, c.start, parsed.events);
    ReplayAppended(env, ring, db, after, c, plain, parsed);
    RowAdvances(env, ring, db, c, plain, parsed);
    forall l | l != c.key
      ensures ChunksOf(after.chunks, l) == ChunksOf(db.chunks, l)
    {
      ChunksOfSnoc(db.chunks, c, l);
    }
  }

  lemma UnknownIsEmpty(env: Env, ring: Keyring, db: Db, k: Key)
    requires KeyOk(env, ring, db, k) && k !in db.sessions
    ensures ViewOf(env, ring, db, k) == EMPTY_VIEW
  {
  }

  /** Session ids stay unique: an upload keeps the stored id or takes the next one. */
  lemma AdvanceKeepsTables(env: Env, db: Db, indexed: Db, c: ChunkRow, plain: Bytes, parsed: Parsed)
    requires SessionIdsOk(db) && TablesOk(env.trim, indexed) && (c.key in db.sessions || parsed.metadata.Some?)
    requires RowFor(env, db, c.key, parsed).hashState.Some?
    requires indexed.sessions == db.sessions && indexed.lastSessionId == db.lastSessionId
    ensures var after := Advance(indexed, c, NewRow(env, RowFor(env, db, c.key, parsed), c, plain, parsed));
      SessionIdsOk(after) && TablesOk(env.trim, after)
  {
    hide SearchOf;
  }

  /** The stored chunk that makes an upload a duplicate: same start, same end, same digest. */
  ghost predicate DuplicateOf(db: Db, c: ChunkRow, i: nat) {
    var rows := ChunksOf(db.chunks, c.key);
    i < |rows| && rows[i].start == c.start && rows[i].end == c.end && rows[i].sha == c.sha
  }

  /** The session can take its next chunk: it is new, or its hash state has been computed. */
  predicate Ready(db: Db, k: Key) {
    k in db.sessions ==> db.sessions[k].hashState.Some?
  }

  /**
   * The main lemma about uploads. From any state that satisfies the invariant an upload leads to one that
   * does; it is accepted as new exactly when it continues the archive with the right cumulative digest, and
   * as a duplicate exactly when that chunk is stored; whatever else happens, nothing changes; and the
   * UNIQUE constraints never fire.
   */
  lemma PutKeepsInvariant(env: Env, ring: Keyring, db: Db, c: ChunkRow, plain: Bytes, prefixSha: string, parsed: Parsed)
    requires Coherent(env.decoder) && Inv(env, ring, db) && Uploaded(env, ring, c, plain, parsed)
    ensures var o := Put(env, db, c, plain, prefixSha, parsed);
      && Inv(env, ring, o.db)
      && (o.reply == Ok(false) ==> Appended(env, ring, db, o.db, c, plain, parsed))
      && (o.reply != Ok(false) ==> o.db == db)
      && o.reply != Err(UniqueViolation)
    ensures Put(env, db, c, plain, prefixSha, parsed).reply == Ok(false) <==>
      && c.start == |ArchiveOf(env, ring, db, c.key)|
      && Ready(db, c.key)
      && EqualFold(Sha(env.hasher, ArchiveOf(env, ring, db, c.key) + plain), prefixSha)
    ensures Put(env, db, c, plain, prefixSha, parsed).reply == Ok(true) <==> exists i :: DuplicateOf(db, c, i)
  {
    hide ParseChunkResult, InsertEvents, IndexedOf, TablesOk, ReplayRows, Open, EqualFold, FindChunk, ChunksOf,
         SessionIdsOk, NewRow;
    var o := Put(env, db, c, plain, prefixSha, parsed);
    var archive := ArchiveOf(env, ring, db, c.key);
    assert KeyOk(env, ring, db, c.key);
    ChunkPositions(env.decoder, plain, c.start, c.key.session);
    ExtendConcat(env.hasher, env.hasher.init, archive, plain);
    DuplicateIffFound(env, ring, db, c);
    if c.key !in db.sessions { UnknownIsEmpty(env, ring, db, c.key); }
    if c.start == |archive| && Ready(db, c.key) {
      FreshPositions(env, ring, db, c, plain, parsed);
      InsertEventsAppends(env.trim, db, c.key, c.start, parsed.events);
    }
    if o.reply == Ok(false) {
      var indexed := InsertEvents(env.trim, db, c.key, c.start, parsed.events).value;
      AdvanceKeepsKey(env, ring, db, indexed, o.db, c, plain, parsed);
      AdvanceKeepsTables(env, db, indexed, c, plain, parsed);
      forall l
        ensures KeyOk(env, ring, o.db, l)
      {
        assert KeyOk(env, ring, db, l);
        if l != c.key { KeyOkElsewhere(env, ring, db, o.db, c.key, l); }
      }
    }
  }

  lemma DuplicateIffFound(env: Env, ring: Keyring, db: Db, c: ChunkRow)
    requires KeyOk(env, ring, db, c.key)
    ensures var stored := FindChunk(db.chunks, c.key, c.start);
      && (stored.Some? ==> c.start < |ArchiveOf(env, ring, db, c.key)|)
      && (stored.Some? && stored.value.end == c.end && stored.value.sha == c.sha <==> exists i :: DuplicateOf(db, c, i))
  {
    hide KeyOk, ChunksOf, FindChunk;
    if FindChunk(db.chunks, c.key, c.start).Some? {
      var i := FoundIsTile(env, ring, db, c.key, c.start);
      var stored := FindChunk(db.chunks, c.key, c.start).value;
      assert DuplicateOf(db, c, i) == (stored.end == c.end && stored.sha == c.sha);
    }
    forall i: nat | DuplicateOf(db, c, i)
      ensures FindChunk(db.chunks, c.key, c.start) == Some(ChunksOf(db.chunks, c.key)[i])
    {
      FindTile(env, ring, db, c.key, i);
    }
  }
}
