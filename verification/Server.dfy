/** The server's handlers: the guards in front of the store, and the reads that go back to the archive. */
module Server {
  import opened Basics
  import opened Hashing
  import opened Invariant
  import opened Paging
  import opened Records
  import opened Replay
  import opened Store
  import opened Tables
  import opened Vault
  import Utf8

  const AGENT := "codex"
  const MAX_MANIFEST_SESSIONS: nat := 10_000
  const MAX_PAGE_BYTES: nat := 262_144

  datatype ChunkRequest = ChunkRequest(
    device: string, agent: string, session: string, start: int, end: int, plainSize: int,
    plainSha: string, prefixSha: string, keyId: string, body: Bytes)

  datatype UploadReply = UploadReply(nextOffset: nat, duplicate: bool)

  datatype UploadError =
    | InvalidPath
    | InvalidEnd
    | InvalidSize
    | InvalidPlainSha
    | InvalidPrefixSha
    | UnknownKey
    | InvalidBody
    | Undecryptable
    | LengthMismatch
    | DigestMismatch
    | Unparsable(why: ParseError)
    | Refused(cause: StoreError)

  /** A request that passed every guard. */
  datatype Checked = Checked(row: ChunkRow, plain: Bytes, parsed: Parsed)

  function KeyOf(q: ChunkRequest): Key {
    Key(q.device, q.agent, q.session)
  }

  /** Everything `handleChunk` checks before it calls the store. None of it looks at the store. */
  function Check(env: Env, ring: Keyring, q: ChunkRequest): Result<Checked, UploadError> {
    if q.start < 0 || q.agent != AGENT || !env.safeId(q.session) then Err(InvalidPath)
    else if q.end <= q.start then Err(InvalidEnd)
    else if q.plainSize != q.end - q.start || q.plainSize > MAX_PLAIN then Err(InvalidSize)
    else if |q.plainSha| != DIGEST_LENGTH then Err(InvalidPlainSha)
    else if |q.prefixSha| != DIGEST_LENGTH then Err(InvalidPrefixSha)
    else if q.keyId !in ring then Err(UnknownKey)
    else if |q.body| > MAX_REQUEST_BODY then Err(InvalidBody)
    else match Decrypt(env.cipher, q.body, ring[q.keyId], MAX_PLAIN)
      case None => Err(Undecryptable)
      case Some(plain) =>
        if |plain| != q.plainSize then Err(LengthMismatch)
        else if Sha(env.hasher, plain) != ToLower(q.plainSha) then Err(DigestMismatch)
        else match ParseChunkResult(env.decoder, plain, q.start, q.session)
          case Err(e) => Err(Unparsable(e))
          case Ok(parsed) =>
            var row := ChunkRow(KeyOf(q), q.start, q.end, q.keyId, ToLower(q.plainSha), q.plainSize, q.body);
            Ok(Checked(row, plain, parsed))
  }

  datatype UploadOutcome = UploadOutcome(db: Db, reply: Result<UploadReply, UploadError>)

  /** A whole upload request against the state of the tables. */
  function Upload(env: Env, ring: Keyring, db: Db, q: ChunkRequest): UploadOutcome {
    match Check(env, ring, q)
    case Err(e) => UploadOutcome(db, Err(e))
    case Ok(c) =>
      var o := Put(env, db, c.row, c.plain, ToLower(q.prefixSha), c.parsed);
      match o.reply
      case Err(e) => UploadOutcome(o.db, Err(Refused(e)))
      case Ok(duplicate) => UploadOutcome(o.db, Ok(UploadReply(c.row.end, duplicate)))
  }

  /** What passed the guards is what `PutChunk` relies on and does not check itself. */
  lemma CheckedIsUploaded(env: Env, ring: Keyring, q: ChunkRequest)
    requires Check(env, ring, q).Ok?
    ensures var c := Check(env, ring, q).value;
      && Uploaded(env, ring, c.row, c.plain, c.parsed)
      && c.row.key == KeyOf(q) && c.row.start == q.start && c.row.end == q.end
      && Terminated(c.plain)
  {
    hide ParseLines, Sha, ToLower;
  }

  /**
   * Any request whatsoever, from a state that satisfies the invariant, leads to one that does. A rejected
   * request and a duplicate change nothing; an accepted one appends its plaintext to one archive, and only
   * when its cumulative digest is that of the archive with the plaintext.
   */
  lemma UploadKeepsInvariant(env: Env, ring: Keyring, db: Db, q: ChunkRequest)
    requires Coherent(env.decoder) && Inv(env, ring, db)
    ensures var o := Upload(env, ring, db, q);
      && Inv(env, ring, o.db)
      && (o.reply.Err? ==> o.db == db)
      && (o.reply.Ok? ==> q.end > q.start >= 0 && o.reply.value.nextOffset == q.end)
      && (o.reply.Ok? && o.reply.value.duplicate ==> o.db == db)
      && (o.reply.Ok? && !o.reply.value.duplicate ==>
            var c := Check(env, ring, q).value;
            && q.start == |ArchiveOf(env, ring, db, KeyOf(q))|
            && Appended(env, ring, db, o.db, c.row, c.plain, c.parsed)
            && EqualFold(Sha(env.hasher, ArchiveOf(env, ring, db, KeyOf(q)) + c.plain), ToLower(q.prefixSha)))
  {
    hide Check, Put, KeyOk, TablesOk, SessionIdsOk, EqualFold, Appended, ToLower;
    if Check(env, ring, q).Ok? {
      var c := Check(env, ring, q).value;
      CheckedIsUploaded(env, ring, q);
      PutKeepsInvariant(env, ring, db, c.row, c.plain, ToLower(q.prefixSha), c.parsed);
    }
  }

  /** `after` has everything of session `k` that `db` has, in the same place. */
  ghost predicate Extends(env: Env, ring: Keyring, db: Db, after: Db, k: Key) {
    && ChunksOf(db.chunks, k) <= ChunksOf(after.chunks, k)
    && ArchiveOf(env, ring, db, k) <= ArchiveOf(env, ring, after, k)
    && ViewOf(env, ring, db, k).index <= ViewOf(env, ring, after, k).index
  }

  /** Uploads only ever append, to any session. */
  lemma UploadExtends(env: Env, ring: Keyring, db: Db, q: ChunkRequest, k: Key)
    requires Coherent(env.decoder) && Inv(env, ring, db)
    ensures Extends(env, ring, db, Upload(env, ring, db, q).db, k)
  {
    hide Check, Put, KeyOk, TablesOk, SessionIdsOk, EqualFold, ToLower, ReplayRows, IndexedOf, ChunksOf;
    UploadKeepsInvariant(env, ring, db, q);
    if Check(env, ring, q).Ok? { CheckedIsUploaded(env, ring, q); }
    if k != KeyOf(q) {
      SameView(env, ring, db, Upload(env, ring, db, q).db, KeyOf(q), k);
    }
  }

  lemma SameView(env: Env, ring: Keyring, db: Db, after: Db, k: Key, l: Key)
    requires after == db || (l != k && SameElsewhere(db, after, k))
    ensures Extends(env, ring, db, after, l)
  {
    if after != db { assert SameSession(db, after, l); }
  }

  /** An acknowledged upload is stored as one of the session's chunks, with its start, end and digest. */
  lemma AcknowledgedIsStored(env: Env, ring: Keyring, db: Db, q: ChunkRequest) returns (i: nat)
    requires Coherent(env.decoder) && Inv(env, ring, db) && Upload(env, ring, db, q).reply.Ok?
    ensures Check(env, ring, q).Ok? && DuplicateOf(Upload(env, ring, db, q).db, Check(env, ring, q).value.row, i)
  {
    hide KeyOk, TablesOk, SessionIdsOk, EqualFold, ToLower, ReplayRows, IndexedOf, ChunksOf, Check, Put;
    var c := Check(env, ring, q).value;
    CheckedIsUploaded(env, ring, q);
    PutKeepsInvariant(env, ring, db, c.row, c.plain, ToLower(q.prefixSha), c.parsed);
    if Put(env, db, c.row, c.plain, ToLower(q.prefixSha), c.parsed).reply == Ok(true) {
      i :| DuplicateOf(db, c.row, i);
    } else {
      i := |ChunksOf(db.chunks, KeyOf(q))|;
    }
  }

  /** The same chunk of the same session: what is sent again after a lost reply, however it is encrypted this time. */
  ghost predicate SameChunk(env: Env, ring: Keyring, q: ChunkRequest, again: ChunkRequest) {
    && Check(env, ring, again).Ok?
    && KeyOf(again) == KeyOf(q) && again.start == q.start && again.end == q.end
    && ToLower(again.plainSha) == ToLower(q.plainSha)
  }

  lemma CheckedSha(env: Env, ring: Keyring, q: ChunkRequest)
    requires Check(env, ring, q).Ok?
    ensures Check(env, ring, q).value.row.sha == ToLower(q.plainSha)
  {
    hide ParseChunkResult, ToLower, Sha;
  }

  /** An acknowledged request may itself be sent again. */
  lemma AcknowledgedMayRepeat(env: Env, ring: Keyring, db: Db, q: ChunkRequest)
    requires Upload(env, ring, db, q).reply.Ok?
    ensures SameChunk(env, ring, q, q)
  {
    hide Check, Put, ToLower;
  }

  /**
   * Replay idempotence. Once a chunk has been acknowledged, any request for the same chunk, in any later state
   * of the same session (any uploads in between, no delete), is a duplicate with the same next offset and
   * changes nothing. The ciphertext, key and prefix digest may differ.
   */
  lemma ReplayIsIdempotent(env: Env, ring: Keyring, db: Db, q: ChunkRequest, later: Db, again: ChunkRequest)
    requires Coherent(env.decoder) && Inv(env, ring, db) && Upload(env, ring, db, q).reply.Ok?
    requires Inv(env, ring, later) && Extends(env, ring, Upload(env, ring, db, q).db, later, KeyOf(q))
    ensures SameChunk(env, ring, q, again) ==>
      Upload(env, ring, later, again) == UploadOutcome(later, Ok(UploadReply(q.end, true)))
  {
    hide KeyOk, TablesOk, SessionIdsOk, EqualFold, ToLower, ReplayRows, IndexedOf, ChunksOf, Check, Put;
    if SameChunk(env, ring, q, again) {
      var i := AcknowledgedIsStored(env, ring, db, q);
      var c := Check(env, ring, again).value;
      CheckedIsUploaded(env, ring, q);
      CheckedIsUploaded(env, ring, again);
      CheckedSha(env, ring, q);
      CheckedSha(env, ring, again);
      PutKeepsInvariant(env, ring, later, c.row, c.plain, ToLower(again.prefixSha), c.parsed);
      assert DuplicateOf(later, c.row, i);
    }
  }

  // Reading a tool output back from the archive.

  datatype OutputError =
    | InvalidSequence
    | OutputNotFound
    | MissingKey
    | Unreadable
    | BadLocator
    | IncompleteEvent
    | NotToolOutput

  datatype OutputReply = OutputReply(output: Bytes, truncated: bool)

  /** The record at byte `at` of a session, cut from the plaintext of the chunk that holds it. */
  function CutRecord(plain: Bytes, relative: int): Result<Bytes, OutputError> {
    if relative < 0 || relative >= |plain| then Err(BadLocator)
    else
      var remaining := plain[relative..];
      var lineEnd := IndexByte(remaining, NEWLINE);
      if lineEnd < 0 then Err(IncompleteEvent) else Ok(remaining[..lineEnd + 1])
  }

  class Server {
    const store: Store
    const ring: Keyring

    constructor (store: Store, ring: Keyring)
      ensures this.store == store && this.ring == ring
    {
      this.store := store;
      this.ring := ring;
    }

    /** `handleChunk`: the guards in order, then the transaction. */
    method HandleChunk(q: ChunkRequest) returns (reply: Result<UploadReply, UploadError>)
      modifies store
      ensures UploadOutcome(store.Snapshot(), reply) == Upload(store.env, ring, old(store.Snapshot()), q)
    {
      if q.start < 0 || q.agent != AGENT || !store.env.safeId(q.session) {
        return Err(InvalidPath);
      }
      if q.end <= q.start {
        return Err(InvalidEnd);
      }
      if q.plainSize != q.end - q.start || q.plainSize > MAX_PLAIN {
        return Err(InvalidSize);
      }
      if |q.plainSha| != DIGEST_LENGTH {
        return Err(InvalidPlainSha);
      }
      if |q.prefixSha| != DIGEST_LENGTH {
        return Err(InvalidPrefixSha);
      }
      if q.keyId !in ring {
        return Err(UnknownKey);
      }
      if |q.body| > MAX_REQUEST_BODY {
        return Err(InvalidBody);
      }
      var decrypted := Decrypt(store.env.cipher, q.body, ring[q.keyId], MAX_PLAIN);
      if decrypted.None? {
        return Err(Undecryptable);
      }
      var plain := decrypted.value;
      if |plain| != q.plainSize {
        return Err(LengthMismatch);
      }
      if Sha(store.env.hasher, plain) != ToLower(q.plainSha) {
        return Err(DigestMismatch);
      }
      var parsed := ParseChunk(store.env.decoder, plain, q.start, q.session);
      if parsed.Err? {
        return Err(Unparsable(parsed.error));
      }
      var row := ChunkRow(KeyOf(q), q.start, q.end, q.keyId, ToLower(q.plainSha), q.plainSize, q.body);
      var stored := store.PutChunk(row, plain, ToLower(q.prefixSha), parsed.value);
      if stored.Err? {
        return Err(Refused(stored.error));
      }
      return Ok(UploadReply(q.end, stored.value));
    }

    /** `handleEvents`: one page of events, with the server's page budget. */
    method HandleEvents(k: Key, after: int, textOffset: int, limit: int) returns (r: Result<Page, CursorError>)
      ensures r == if after < 0 || textOffset < 0 then Err(InvalidCursor)
                   else PageOf(EventsOf(store.Snapshot(), k), Cursor(after, textOffset), limit, 262_144)
    {
      if after < 0 {
        return Err(InvalidCursor);
      }
      if textOffset < 0 {
        return Err(InvalidCursor);
      }
      r := store.Events(k, after, textOffset, limit, MAX_PAGE_BYTES);
    }

    /** `truncateUTF8` of the server: the same cut, with a flag. */
    method TruncateOutput(value: Bytes, max: nat) returns (r: Bytes, truncated: bool)
      ensures r == if |value| <= max then value else Utf8.Truncate(value, max)
      ensures truncated <==> max < |value|
    {
      r := Utf8.TruncateUtf8(value, max);
      truncated := max < |value|;
    }

    /** `handleToolOutput`: locate the chunk, decrypt it, cut the record out and decode it. */
    method HandleToolOutput(k: Key, at: int) returns (r: Result<OutputReply, OutputError>)
      ensures r == ToolOutputReply(store.env, ring, store.Snapshot(), k, at)
    {
      if at < 0 {
        return Err(InvalidSequence);
      }
      var found := store.EventChunk(k, at);
      if found.Err? {
        return Err(OutputNotFound);
      }
      var chunk := found.value;
      if chunk.keyId !in ring {
        return Err(MissingKey);
      }
      var decrypted := Decrypt(store.env.cipher, chunk.ciphertext, ring[chunk.keyId], MAX_PLAIN);
      if decrypted.None? {
        return Err(Unreadable);
      }
      var plain := decrypted.value;
      var relative := at - chunk.start;
      if relative < 0 || relative >= |plain| {
        return Err(BadLocator);
      }
      var remaining := plain[relative..];
      var lineEnd := IndexByte(remaining, NEWLINE);
      if lineEnd < 0 {
        return Err(IncompleteEvent);
      }
      var output := ToolOutput(store.env.decoder, remaining[..lineEnd + 1]);
      if output.None? {
        return Err(NotToolOutput);
      }
      var text, truncated := TruncateOutput(output.value, MAX_PAGE_BYTES);
      return Ok(OutputReply(text, truncated));
    }
  }

  function ToolOutputReply(env: Env, ring: Keyring, db: Db, k: Key, at: int): Result<OutputReply, OutputError> {
    if at < 0 then Err(InvalidSequence)
    else match LocateOutput(db.events, db.chunks, k, at)
      case None => Err(OutputNotFound)
      case Some(c) =>
        if c.keyId !in ring then Err(MissingKey)
        else match Decrypt(env.cipher, c.ciphertext, ring[c.keyId], MAX_PLAIN)
          case None => Err(Unreadable)
          case Some(plain) =>
            match CutRecord(plain, at - c.start)
            case Err(e) => Err(e)
            case Ok(line) =>
              match ToolOutput(env.decoder, line)
              case None => Err(NotToolOutput)
              case Some(output) =>
                Ok(OutputReply(if |output| <= MAX_PAGE_BYTES then output else Utf8.Truncate(output, MAX_PAGE_BYTES),
                               MAX_PAGE_BYTES < |output|))
  }
}
