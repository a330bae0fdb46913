/** The four tables as values, and what each statement of a store transaction does to them. */
module Tables {
  import opened Basics
  import opened Hashing
  import opened Records
  import opened Vault

  datatype Key = Key(device: string, agent: string, session: string)

  datatype SessionRow = SessionRow(
    id: nat, nextOffset: nat, meta: Metadata, lastActivity: Bytes,
    hashState: Option<HashState>, metadataVersion: nat)

  datatype ChunkRow = ChunkRow(
    key: Key, start: nat, end: nat, keyId: string, sha: string, size: nat, ciphertext: Bytes)

  datatype EventRow = EventRow(id: nat, key: Key, chunkStart: nat, event: Event)

  datatype SearchRow = SearchRow(rowid: nat, text: Bytes, key: Key, at: nat)

  datatype Db = Db(
    sessions: map<Key, SessionRow>, chunks: seq<ChunkRow>, events: seq<EventRow>, search: seq<SearchRow>,
    lastSessionId: nat, lastEventId: nat)

  const EMPTY_DB := Db(map[], [], [], [], 0, 0)

  /** The library functions the store relies on; none is interpreted beyond its record. */
  datatype Env = Env(hasher: Hasher, decoder: Decoder, cipher: Cipher, trim: Bytes -> Bytes, safeId: string -> bool)

  datatype StoreError =
    | NewSessionWithoutMetadata
    | ConflictingChunk
    | OffsetConflict
    | NoPrefixState
    | PrefixMismatch
    | UniqueViolation

  /** An event together with the chunk it was parsed from. */
  datatype Indexed = Indexed(chunkStart: nat, event: Event)

  // Selecting by key. Rows are kept in insertion order.

  function ChunksOf(rows: seq<ChunkRow>, k: Key): seq<ChunkRow> {
    if rows == [] then []
    else
      var last := rows[|rows| - 1];
      ChunksOf(rows[..|rows| - 1], k) + if last.key == k then [last] else []
  }

  function IndexedOf(rows: seq<EventRow>, k: Key): seq<Indexed> {
    if rows == [] then []
    else
      var last := rows[|rows| - 1];
      IndexedOf(rows[..|rows| - 1], k) + if last.key == k then [Indexed(last.chunkStart, last.event)] else []
  }

  function EventsIn(index: seq<Indexed>): seq<Event> {
    seq(|index|, i requires 0 <= i < |index| => index[i].event)
  }

  function FindChunk(rows: seq<ChunkRow>, k: Key, start: nat): (r: Option<ChunkRow>)
    ensures r.Some? ==> r.value.key == k && r.value.start == start
  {
    if rows == [] then None
    else
      var last := rows[|rows| - 1];
      if last.key == k && last.start == start then Some(last) else FindChunk(rows[..|rows| - 1], k, start)
  }

  predicate HasEvent(rows: seq<EventRow>, k: Key, at: nat) {
    exists i :: 0 <= i < |rows| && rows[i].key == k && rows[i].event.at == at
  }

  // Inserting events, with their search rows.

  function SearchText(trim: Bytes -> Bytes, e: Event): Bytes {
    trim(e.text + [SPACE] + e.toolName + [SPACE] + e.toolStatus)
  }

  /** The search rows an event row gives rise to: one, or none when there is nothing to search. */
  function SearchRows(trim: Bytes -> Bytes, r: EventRow): seq<SearchRow> {
    var text := SearchText(trim, r.event);
    if text == [] then [] else [SearchRow(r.id, text, r.key, r.event.at)]
  }

  /** One event of a transaction; `None` when the UNIQUE constraint on (key, seq) fires. */
  function InsertEvent(trim: Bytes -> Bytes, db: Db, k: Key, chunkStart: nat, e: Event): Option<Db> {
    if HasEvent(db.events, k, e.at) then None
    else
      var row := EventRow(db.lastEventId + 1, k, chunkStart, e);
      Some(db.(events := db.events + [row], search := db.search + SearchRows(trim, row),
               lastEventId := db.lastEventId + 1))
  }

  function InsertEvents(trim: Bytes -> Bytes, db: Db, k: Key, chunkStart: nat, es: seq<Event>): Option<Db>
    decreases |es|
  {
    if es == [] then Some(db)
    else match InsertEvent(trim, db, k, chunkStart, es[0])
      case None => None
      case Some(next) => InsertEvents(trim, next, k, chunkStart, es[1..])
  }

  /** The session row a transaction works on: the stored one, or a new one at offset 0. */
  function RowFor(env: Env, db: Db, k: Key, parsed: Parsed): SessionRow
    requires k in db.sessions || parsed.metadata.Some?
  {
    if k in db.sessions then db.sessions[k]
    else SessionRow(db.lastSessionId + 1, 0, parsed.metadata.value, parsed.lastActivity, Some(env.hasher.init), 1)
  }

  datatype PutOutcome = PutOutcome(db: Db, reply: Result<bool, StoreError>)

  /** The whole `PutChunk` transaction. The reply says whether the chunk was already there. */
  function Put(env: Env, db: Db, c: ChunkRow, plain: Bytes, prefixSha: string, parsed: Parsed): PutOutcome {
    if c.key !in db.sessions && (c.start != 0 || parsed.metadata.None?) then
      PutOutcome(db, Err(NewSessionWithoutMetadata))
    else
      var row := RowFor(env, db, c.key, parsed);
      if c.start < row.nextOffset then
        var stored := FindChunk(db.chunks, c.key, c.start);
        if stored.Some? && stored.value.end == c.end && stored.value.sha == c.sha then PutOutcome(db, Ok(true))
        else PutOutcome(db, Err(ConflictingChunk))
      else if c.start != row.nextOffset then PutOutcome(db, Err(OffsetConflict))
      else if row.hashState.None? then PutOutcome(db, Err(NoPrefixState))
      else
        var state := Extend(env.hasher, row.hashState.value, plain);
        if !EqualFold(env.hasher.digest(state), prefixSha) then PutOutcome(db, Err(PrefixMismatch))
        else if FindChunk(db.chunks, c.key, c.start).Some? then PutOutcome(db, Err(UniqueViolation))
        else match InsertEvents(env.trim, db, c.key, c.start, parsed.events)
          case None => PutOutcome(db, Err(UniqueViolation))
          case Some(indexed) => PutOutcome(Advance(indexed, c, NewRow(env, row, c, plain, parsed)), Ok(false))
  }

  /** The session row after an accepted upload. */
  function NewRow(env: Env, row: SessionRow, c: ChunkRow, plain: Bytes, parsed: Parsed): SessionRow
    requires row.hashState.Some?
  {
    row.(nextOffset := c.end, hashState := Some(Extend(env.hasher, row.hashState.value, plain)),
         lastActivity := Later(parsed.lastActivity, row.lastActivity))
  }

  /** The chunk and session rows of an accepted upload. */
  function Advance(db: Db, c: ChunkRow, row: SessionRow): Db {
    db.(chunks := db.chunks + [c], sessions := db.sessions[c.key := row],
        lastSessionId := if c.key in db.sessions then db.lastSessionId else row.id)
  }

  // Deleting a session, with the cascade to its chunks and events.

  function ChunksWithout(rows: seq<ChunkRow>, k: Key): seq<ChunkRow> {
    if rows == [] then []
    else
      var last := rows[|rows| - 1];
      ChunksWithout(rows[..|rows| - 1], k) + if last.key == k then [] else [last]
  }

  function EventsWithout(rows: seq<EventRow>, k: Key): seq<EventRow> {
    if rows == [] then []
    else
      var last := rows[|rows| - 1];
      EventsWithout(rows[..|rows| - 1], k) + if last.key == k then [] else [last]
  }

  function EventIds(rows: seq<EventRow>, k: Key): set<nat> {
    set i | 0 <= i < |rows| && rows[i].key == k :: rows[i].id
  }

  function SearchWithout(rows: seq<SearchRow>, ids: set<nat>): seq<SearchRow> {
    if rows == [] then []
    else
      var last := rows[|rows| - 1];
      SearchWithout(rows[..|rows| - 1], ids) + if last.rowid in ids then [] else [last]
  }

  /** The `DeleteSession` transaction; the reply is false when there was no such session. */
  function Delete(db: Db, k: Key): (Db, bool) {
    if k !in db.sessions then (db, false)
    else
      (db.(search := SearchWithout(db.search, EventIds(db.events, k)), sessions := db.sessions - {k},
           chunks := ChunksWithout(db.chunks, k), events := EventsWithout(db.events, k)), true)
  }
}
