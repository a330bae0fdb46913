/** Export of a session's archive by the administrator. */
module Admin {
  import opened Basics
  import opened Hashing
  import opened Invariant
  import opened Locators
  import opened Ordering
  import opened Queries
  import opened Replay
  import opened Server
  import opened Store
  import opened Tables
  import opened Vault

  datatype ExportError = NoSuchSession | OffsetGap | MissingServerKey | CannotDecrypt | IntegrityFailure

  /** One chunk reads back with its declared size and digest. */
  predicate ReadsBack(env: Env, ring: Keyring, c: ChunkRow) {
    match Open(env.cipher, ring, c.keyId, c.ciphertext)
    case None => false
    case Some(plain) => |plain| == c.size && Sha(env.hasher, plain) == c.sha
  }

  /** The chunks follow each other from 0 and all read back. */
  ghost predicate Intact(env: Env, ring: Keyring, rows: seq<ChunkRow>) {
    && (rows != [] ==> rows[0].start == 0)
    && (forall i :: 0 < i < |rows| ==> rows[i].start == rows[i - 1].end)
    && (forall i :: 0 <= i < |rows| ==> ReadsBack(env, ring, rows[i]))
  }

  function Contents(env: Env, ring: Keyring, rows: seq<ChunkRow>): Bytes {
    if rows == [] then []
    else Contents(env, ring, rows[..|rows| - 1]) + PlainOf(env, ring, rows[|rows| - 1])
  }

  /** What is wrong with chunk `i`, the first that breaks the archive. */
  ghost predicate Breaks(env: Env, ring: Keyring, rows: seq<ChunkRow>, i: nat, e: ExportError) {
    && i < |rows| && Intact(env, ring, rows[..i])
    && match e
       case NoSuchSession => false
       case OffsetGap => rows[i].start != EndBefore(rows, i)
       case MissingServerKey => rows[i].keyId !in ring
       case CannotDecrypt =>
         rows[i].keyId in ring && Decrypt(env.cipher, rows[i].ciphertext, ring[rows[i].keyId], MAX_PLAIN).None?
       case IntegrityFailure =>
         && Open(env.cipher, ring, rows[i].keyId, rows[i].ciphertext).Some?
         && var plain := PlainOf(env, ring, rows[i]);
         |plain| != rows[i].size || Sha(env.hasher, plain) != rows[i].sha
  }

  /** `Export`: succeeds exactly on an intact archive, and then writes all of it; else it says what is wrong. */
  method Export(store: Store, ring: Keyring, device: string, session: string) returns (r: Result<Bytes, ExportError>)
    ensures var rows := SortBy(StartOf, ChunksOf(store.chunks, Key(device, AGENT, session)));
      && (r.Ok? <==> rows != [] && Intact(store.env, ring, rows))
      && (r.Ok? ==> r.value == Contents(store.env, ring, rows))
      && (r == Err(NoSuchSession) <==> rows == [])
      && (r.Err? && rows != [] ==> exists i: nat :: Breaks(store.env, ring, rows, i, r.error))
  {
    hide SortBy, ChunksOf, Decrypt, Sha, Intact, Contents;
    var k := Key(device, AGENT, session);
    SortBySorts(StartOf, ChunksOf(store.chunks, k));
    PermutationLength(SortBy(StartOf, ChunksOf(store.chunks, k)), ChunksOf(store.chunks, k));
    var loaded := store.Chunks(k);
    if loaded.Err? {
      return Err(NoSuchSession);
    }
    var rows := loaded.value;
    var output: Bytes, expected := [], 0;
    var i := 0;
    assert rows[..0] == [];
    IntactNothing(store.env, ring);
    while i < |rows|
      invariant 0 <= i <= |rows|
      invariant expected == EndBefore(rows, i)
      invariant Intact(store.env, ring, rows[..i]) && output == Contents(store.env, ring, rows[..i])
    {
      var chunk := rows[i];
      IntactNext(store.env, ring, rows, i, i + 1);
      if chunk.start != expected {
        assert Breaks(store.env, ring, rows, i, OffsetGap);
        return Err(OffsetGap);
      }
      if chunk.keyId !in ring {
        assert Breaks(store.env, ring, rows, i, MissingServerKey);
        return Err(MissingServerKey);
      }
      var decrypted := Decrypt(store.env.cipher, chunk.ciphertext, ring[chunk.keyId], MAX_PLAIN);
      if decrypted.None? {
        assert Breaks(store.env, ring, rows, i, CannotDecrypt);
        return Err(CannotDecrypt);
      }
      var plain := decrypted.value;
      if |plain| != chunk.size || Sha(store.env.hasher, plain) != chunk.sha {
        assert Breaks(store.env, ring, rows, i, IntegrityFailure);
        return Err(IntegrityFailure);
      }
      output := output + plain;
      expected := chunk.end;
      i := i + 1;
    }
    assert rows[..i] == rows;
    return Ok(output);
  }

  /** Where chunk `i` has to start. */
  function EndBefore(rows: seq<ChunkRow>, i: nat): nat
    requires i <= |rows|
  {
    if i == 0 then 0 else rows[i - 1].end
  }

  lemma IntactNothing(env: Env, ring: Keyring)
    ensures Intact(env, ring, []) && Contents(env, ring, []) == []
  {
  }

  /** One chunk further: the archive so far stays intact, or the whole archive is not. */
  lemma IntactNext(env: Env, ring: Keyring, rows: seq<ChunkRow>, i: nat, next: nat)
    requires i < |rows| && next == i + 1 && Intact(env, ring, rows[..i])
    ensures rows[i].start == EndBefore(rows, i) && ReadsBack(env, ring, rows[i])
      ==> Intact(env, ring, rows[..next])
          && Contents(env, ring, rows[..next]) == Contents(env, ring, rows[..i]) + PlainOf(env, ring, rows[i])
    ensures !(rows[i].start == EndBefore(rows, i) && ReadsBack(env, ring, rows[i])) ==> !Intact(env, ring, rows)
  {
    hide ReadsBack, PlainOf;
    assert rows[..next][..i] == rows[..i];
    assert forall j :: 0 <= j < next ==> rows[..next][j] == rows[j];
    assert forall j :: 0 <= j < i ==> rows[..i][j] == rows[j];
  }

  /** The administrator's keyring has every key the server used. */
  ghost predicate Complete(ring: Keyring, keys: Keyring) {
    forall id :: id in ring ==> id in keys && keys[id] == ring[id]
  }

  lemma {:induction false} ContentsIsArchive(env: Env, ring: Keyring, session: string, rows: seq<ChunkRow>)
    requires ReplayRows(env, ring, session, rows).Some?
    ensures Contents(env, ring, rows) == ReplayRows(env, ring, session, rows).value.archive
  {
    if rows != [] {
      hide AddChunk, PlainOf, Sha;
      var before, last := rows[..|rows| - 1], rows[|rows| - 1];
      ContentsIsArchive(env, ring, session, before);
      AddChunkFacts(env, ring, session, ReplayRows(env, ring, session, before).value, last);
    }
  }

  /**
   * The export round trip: in every state that satisfies the invariant, with a complete keyring, a known
   * session is intact and what `Export` writes is its archived text, byte for byte.
   */
  lemma ExportIsArchive(env: Env, ring: Keyring, keys: Keyring, db: Db, k: Key)
    requires KeyOk(env, ring, db, k) && Complete(ring, keys)
    ensures var rows := SortBy(StartOf, ChunksOf(db.chunks, k));
      && (rows != [] <==> k in db.sessions)
      && Intact(env, keys, rows)
      && Contents(env, keys, rows) == ArchiveOf(env, ring, db, k)
  {
    hide ReplayRows, SortBy, ChunksOf, PlainOf, Open, Tiles, ReadsBack, Contents;
    var rows := ChunksOf(db.chunks, k);
    ArchiveIsTiled(env, ring, db, k);
    ReplayKeepsWithMoreKeys(env, ring, keys, k.session, rows);
    ReplayTiles(env, keys, k.session, rows);
    ContentsIsArchive(env, keys, k.session, rows);
    TilesFollow(env, keys, rows, ReplayRows(env, keys, k.session, rows).value.archive);
    forall i | 0 <= i < |rows|
      ensures ReadsBack(env, keys, rows[i])
    {
      ReplayedReadsBack(env, keys, k.session, rows, i);
    }
  }

  lemma TilesFollow(env: Env, ring: Keyring, rows: seq<ChunkRow>, archive: Bytes)
    requires Tiles(env, ring, rows, archive)
    ensures rows != [] ==> rows[0].start == 0
    ensures forall i :: 0 < i < |rows| ==> rows[i].start == rows[i - 1].end
  {
    hide PlainOf;
  }

  lemma ReplayedReadsBack(env: Env, ring: Keyring, session: string, rows: seq<ChunkRow>, i: nat)
    requires ReplayRows(env, ring, session, rows).Some? && i < |rows|
    ensures ReadsBack(env, ring, rows[i])
  {
    hide ReplayRows, Open;
    ReplayTiles(env, ring, session, rows);
    OpensReplayed(env, ring, session, rows, i);
  }
}
