/** The reference reading of an archive: its chunks decrypted, checked, parsed and joined in order. */
module Replay {
  import opened Basics
  import opened Hashing
  import opened Lines
  import opened Records
  import opened Tables
  import opened Vault

  /** What a session's chunks amount to: its text, its index, and the chunk each event came from. */
  datatype View = View(archive: Bytes, parsed: Parsed, index: seq<Indexed>)

  const EMPTY_VIEW := View([], NOTHING, [])

  function Tag(chunkStart: nat, es: seq<Event>): seq<Indexed> {
    seq(|es|, i requires 0 <= i < |es| => Indexed(chunkStart, es[i]))
  }

  /** Chunk `c` holds `plain`, intact, and `plain` continues `v` as whole valid records. */
  function AddPlain(env: Env, session: string, v: View, c: ChunkRow, plain: Bytes): Option<View> {
    if c.start == |v.archive| && c.end == c.start + |plain| && c.size == |plain| && c.sha == Sha(env.hasher, plain) then
      match ParseChunkResult(env.decoder, plain, c.start, session)
      case Err(_) => None
      case Ok(p) => Some(View(v.archive + plain, Join(v.parsed, p), v.index + Tag(c.start, p.events)))
    else None
  }

  function AddChunk(env: Env, ring: Keyring, session: string, v: View, c: ChunkRow): Option<View> {
    match Open(env.cipher, ring, c.keyId, c.ciphertext)
    case None => None
    case Some(plain) => AddPlain(env, session, v, c, plain)
  }

  function ReplayRows(env: Env, ring: Keyring, session: string, rows: seq<ChunkRow>): Option<View> {
    if rows == [] then Some(EMPTY_VIEW)
    else match ReplayRows(env, ring, session, rows[..|rows| - 1])
      case None => None
      case Some(v) => AddChunk(env, ring, session, v, rows[|rows| - 1])
  }

  /** The plaintext of one chunk, as the server reads it. */
  function PlainOf(env: Env, ring: Keyring, c: ChunkRow): Bytes {
    var p := Open(env.cipher, ring, c.keyId, c.ciphertext);
    if p.Some? then p.value else []
  }

  lemma ReplaySnoc(env: Env, ring: Keyring, session: string, rows: seq<ChunkRow>, c: ChunkRow)
    ensures ReplayRows(env, ring, session, rows + [c])
         == match ReplayRows(env, ring, session, rows)
            case None => None
            case Some(v) => AddChunk(env, ring, session, v, c)
  {
    assert (rows + [c])[..|rows|] == rows;
  }

  /** A chunk is a non-empty run of whole lines of its declared size and digest, and the slice of the text it claims. */
  ghost predicate IsTile(env: Env, ring: Keyring, c: ChunkRow, archive: Bytes) {
    && c.start < c.end <= |archive|
    && c.size == c.end - c.start
    && archive[c.start..c.end] == PlainOf(env, ring, c)
    && Terminated(PlainOf(env, ring, c))
    && c.sha == Sha(env.hasher, PlainOf(env, ring, c))
  }

  /** The chunks tile the text: each is a tile of it, and starts where the one before ended. */
  ghost predicate Tiles(env: Env, ring: Keyring, rows: seq<ChunkRow>, archive: Bytes) {
    && |archive| == (if rows == [] then 0 else rows[|rows| - 1].end)
    && (rows != [] ==> rows[0].start == 0)
    && (forall i :: 0 < i < |rows| ==> rows[i].start == rows[i - 1].end)
    && (forall i :: 0 <= i < |rows| ==> IsTile(env, ring, rows[i], archive))
  }

  lemma TileStays(env: Env, ring: Keyring, c: ChunkRow, archive: Bytes, more: Bytes)
    requires IsTile(env, ring, c, archive)
    ensures IsTile(env, ring, c, archive + more)
  {
    hide Sha, PlainOf, Terminated;
    assert (archive + more)[c.start..c.end] == archive[c.start..c.end];
  }

  lemma NewTile(env: Env, ring: Keyring, archive: Bytes, c: ChunkRow)
    requires c.start == |archive| && c.end == c.start + |PlainOf(env, ring, c)| && c.size == |PlainOf(env, ring, c)|
    requires c.sha == Sha(env.hasher, PlainOf(env, ring, c)) && Terminated(PlainOf(env, ring, c))
    ensures IsTile(env, ring, c, archive + PlainOf(env, ring, c))
  {
    hide Sha, PlainOf;
    DropLeft(archive, PlainOf(env, ring, c));
  }

  lemma TilesSnoc(env: Env, ring: Keyring, rows: seq<ChunkRow>, archive: Bytes, c: ChunkRow)
    requires Tiles(env, ring, rows, archive)
    requires c.start == |archive| && c.end == c.start + |PlainOf(env, ring, c)| && c.size == |PlainOf(env, ring, c)|
    requires c.sha == Sha(env.hasher, PlainOf(env, ring, c)) && Terminated(PlainOf(env, ring, c))
    ensures Tiles(env, ring, rows + [c], archive + PlainOf(env, ring, c))
  {
    hide Sha, PlainOf, Terminated, IsTile;
    NewTile(env, ring, archive, c);
    var plain, more := PlainOf(env, ring, c), rows + [c];
    forall i | 0 <= i < |more|
      ensures IsTile(env, ring, more[i], archive + plain)
    {
      if i < |rows| { TileStays(env, ring, rows[i], archive, plain); }
    }
  }

  lemma AddChunkFacts(env: Env, ring: Keyring, session: string, v: View, c: ChunkRow)
    requires AddChunk(env, ring, session, v, c).Some?
    ensures var plain := PlainOf(env, ring, c);
      && AddChunk(env, ring, session, v, c).value.archive == v.archive + plain
      && c.start == |v.archive| && c.end == c.start + |plain| && c.size == |plain|
      && c.sha == Sha(env.hasher, plain) && Terminated(plain)
  {
    hide ParseLines, Sha, Join, Tag;
  }

  lemma {:induction false} ReplayTiles(env: Env, ring: Keyring, session: string, rows: seq<ChunkRow>)
    requires ReplayRows(env, ring, session, rows).Some?
    ensures Tiles(env, ring, rows, ReplayRows(env, ring, session, rows).value.archive)
  {
    if rows != [] {
      hide Tiles, AddChunk, PlainOf, Open, Sha, Terminated, LineAligned;
      var before, last := rows[..|rows| - 1], rows[|rows| - 1];
      ReplayTiles(env, ring, session, before);
      var v := ReplayRows(env, ring, session, before).value;
      AddChunkFacts(env, ring, session, v, last);
      TilesSnoc(env, ring, before, v.archive, last);
      BeforeAndLast(rows);
    }
  }

  lemma BeforeAndLast<T>(s: seq<T>)
    requires s != []
    ensures s == s[..|s| - 1] + [s[|s| - 1]]
  {
  }

  /** Starts increase along the tiling. */
  lemma {:induction false} TilesOrdered(env: Env, ring: Keyring, rows: seq<ChunkRow>, archive: Bytes, i: nat, j: nat)
    requires Tiles(env, ring, rows, archive) && i < j < |rows|
    ensures rows[i].end <= rows[j].start
    decreases j
  {
    if i < j - 1 {
      TilesOrdered(env, ring, rows, archive, i, j - 1);
    }
  }

  /**
   * The index built chunk by chunk is the index of one parse of the whole text, whatever the chunk
   * boundaries: events, metadata and last activity alike.
   */
  lemma {:induction false} ReplayIsOneParse(env: Env, ring: Keyring, session: string, rows: seq<ChunkRow>)
    requires rows != [] && ReplayRows(env, ring, session, rows).Some?
    ensures var v := ReplayRows(env, ring, session, rows).value;
      && ParseChunkResult(env.decoder, v.archive, 0, session) == Ok(v.parsed)
      && Terminated(v.archive)
  {
    hide ParseLines, Sha, Join, Tag;
    var before := rows[..|rows| - 1];
    var plain := PlainOf(env, ring, rows[|rows| - 1]);
    if before == [] {
      JoinMonoid(ParseChunkResult(env.decoder, plain, 0, session).value, NOTHING, NOTHING);
      ConcatUnit(plain);
    } else {
      ReplayIsOneParse(env, ring, session, before);
      var v := ReplayRows(env, ring, session, before).value;
      ParseChunkComposes(env.decoder, v.archive, plain, 0, session);
      assert (v.archive + plain)[|v.archive + plain| - 1] == plain[|plain| - 1];
    }
  }

  /** The tagged index and the parsed index list the same events. */
  lemma {:induction false} ReplayIndexEvents(env: Env, ring: Keyring, session: string, rows: seq<ChunkRow>)
    requires ReplayRows(env, ring, session, rows).Some?
    ensures var v := ReplayRows(env, ring, session, rows).value; EventsIn(v.index) == v.parsed.events
  {
    hide ParseChunkResult;
    if rows != [] {
      ReplayIndexEvents(env, ring, session, rows[..|rows| - 1]);
    }
  }

  /** Each indexed event lies inside the chunk it is tagged with, at its position in one parse of that chunk. */
  ghost predicate Located(env: Env, ring: Keyring, session: string, c: ChunkRow, x: Indexed) {
    && x.chunkStart == c.start <= x.event.at < c.end
    && ParseChunkResult(env.decoder, PlainOf(env, ring, c), c.start, session).Ok?
    && exists j :: 0 <= j < |ParseChunkResult(env.decoder, PlainOf(env, ring, c), c.start, session).value.events|
                && ParseChunkResult(env.decoder, PlainOf(env, ring, c), c.start, session).value.events[j] == x.event
  }

  lemma {:induction false} ReplayLocates(env: Env, ring: Keyring, session: string, rows: seq<ChunkRow>,
                                         i: nat) returns (n: nat)
    requires Coherent(env.decoder) && ReplayRows(env, ring, session, rows).Some?
    requires i < |ReplayRows(env, ring, session, rows).value.index|
    ensures n < |rows| && Located(env, ring, session, rows[n], ReplayRows(env, ring, session, rows).value.index[i])
  {
    hide ParseLines, LinesOf, Sha, Join;
    var before, c := rows[..|rows| - 1], rows[|rows| - 1];
    var v := ReplayRows(env, ring, session, before).value;
    if i < |v.index| {
      n := ReplayLocates(env, ring, session, before, i);
    } else {
      n := |rows| - 1;
      var plain := PlainOf(env, ring, c);
      ChunkPositions(env.decoder, plain, c.start, session);
      var es := ParseChunkResult(env.decoder, plain, c.start, session).value.events;
      assert es[i - |v.index|] == ReplayRows(env, ring, session, rows).value.index[i].event;
    }
  }

  /** `EventPositions` for one chunk. */
  lemma ChunkPositions(d: Decoder, plain: Bytes, base: nat, session: string)
    requires Coherent(d) && ParseChunkResult(d, plain, base, session).Ok?
    ensures var p := ParseChunkResult(d, plain, base, session).value;
      && IndexedWithin(p.events, base, base + |plain|)
      && (p.metadata.Some? <==> base == 0)
  {
    hide ParseLines, LinesOf, Flat;
    LinesOfAreLines(plain);
    FlatOfAligned(plain);
    FlatEmpty(LinesOf(plain));
    EventPositions(d, LinesOf(plain), base, session);
  }

  /** Positions in a whole index: increasing, positive and inside the text. */
  lemma ReplayPositions(env: Env, ring: Keyring, session: string, rows: seq<ChunkRow>)
    requires Coherent(env.decoder) && ReplayRows(env, ring, session, rows).Some?
    ensures var v := ReplayRows(env, ring, session, rows).value;
      IndexedWithin(v.parsed.events, 0, |v.archive|) && (rows != [] <==> v.parsed.metadata.Some?)
  {
    if rows != [] {
      ReplayIsOneParse(env, ring, session, rows);
      ChunkPositions(env.decoder, ReplayRows(env, ring, session, rows).value.archive, 0, session);
    }
  }

  /** More keys never change what the old ones read. */
  lemma {:induction false} ReplayKeepsWithMoreKeys(env: Env, ring: Keyring, more: Keyring, session: string,
          rows: seq<ChunkRow>)
    requires ReplayRows(env, ring, session, rows).Some?
    requires forall id :: id in ring ==> id in more && more[id] == ring[id]
    ensures ReplayRows(env, more, session, rows) == ReplayRows(env, ring, session, rows)
  {
    hide AddPlain;
    if rows != [] {
      ReplayKeepsWithMoreKeys(env, ring, more, session, rows[..|rows| - 1]);
    }
  }
}
