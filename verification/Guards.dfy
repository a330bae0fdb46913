/** What the guards of an upload let through, what they report, and what the transaction refuses. */
module Guards {
  import opened Basics
  import opened Hashing
  import opened Indexing
  import opened Invariant
  import opened Lines
  import opened Records
  import opened Replay
  import opened Server
  import opened Tables
  import opened Vault

  function Capital(i: nat): char
    requires i < 26
  {
    "ABCDEFGHIJKLMNOPQRSTUVWXYZ"[i]
  }

  function Small(i: nat): char
    requires i < 26
  {
    "abcdefghijklmnopqrstuvwxyz"[i]
  }

  lemma Letters(i: nat)
    requires i < 26
    ensures Capital(i) == 'A' + i as char && Small(i) == 'a' + i as char
  {
  }

  /** `a` and `b` are letter `i` of the alphabet, each in one case or the other. */
  predicate IsLetter(i: nat, a: char, b: char) {
    i < 26 && (a == Capital(i) || a == Small(i)) && (b == Capital(i) || b == Small(i))
  }

  /** The same character, or the same letter in either case. */
  ghost predicate SameLetter(a: char, b: char) {
    a == b || exists i: nat :: i < 26 && IsLetter(i, a, b)
  }

  lemma LetterLower(i: nat, a: char, b: char)
    requires i < 26
    ensures IsLetter(i, a, b) <==> LowerChar(a) == LowerChar(b) == 'a' + i as char
  {
    hide Capital, Small;
    Letters(i);
  }

  lemma LowerIsSame(a: char, b: char)
    ensures LowerChar(a) == LowerChar(b) <==> SameLetter(a, b)
  {
    hide IsLetter;
    if i: nat :| i < 26 && IsLetter(i, a, b) { LetterLower(i, a, b); }
    if LowerChar(a) == LowerChar(b) && a != b {
      LetterLower((LowerChar(a) - 'a') as nat, a, b);
    }
  }

  /** Digests are compared letter by letter, in either case. */
  lemma FoldsLetters(a: string, b: string)
    ensures EqualFold(a, b) <==> |a| == |b| && forall i :: 0 <= i < |a| ==> SameLetter(a[i], b[i])
  {
    hide SameLetter, LowerChar;
    forall i | 0 <= i < |a| && |a| == |b|
      ensures LowerChar(a[i]) == LowerChar(b[i]) <==> SameLetter(a[i], b[i])
    {
      LowerIsSame(a[i], b[i]);
    }
    if EqualFold(a, b) {
      assert |ToLower(a)| == |ToLower(b)|;
      assert forall i :: 0 <= i < |a| ==> ToLower(a)[i] == ToLower(b)[i];
    }
  }

  /** All of `plain` are whole records of session `session` from byte `start` on. */
  ghost predicate HoldsRecords(d: Decoder, plain: Bytes, start: nat, session: string) {
    && Terminated(plain)
    && forall n: nat :: n < |LinesOf(plain)| ==>
         Indexable(d, LinesOf(plain)[n], PositionOf(LinesOf(plain), start, n), session)
  }

  /** The request is well formed and its body decrypts to records of the length and digest it declares. */
  ghost predicate Admissible(env: Env, ring: Keyring, q: ChunkRequest, plain: Bytes) {
    && q.agent == "codex" && env.safeId(q.session)
    && 0 <= q.start < q.end && q.end - q.start == q.plainSize == |plain| <= 71_303_168
    && |q.plainSha| == 64 && |q.prefixSha| == 64 && |q.body| <= 69_206_016
    && q.keyId in ring && env.cipher.decrypt(ring[q.keyId], q.body) == Some(plain)
    && Sha(env.hasher, plain) == ToLower(q.plainSha)
    && HoldsRecords(env.decoder, plain, q.start, q.session)
  }

  lemma RecordsParse(d: Decoder, plain: Bytes, start: nat, session: string)
    ensures ParseChunkResult(d, plain, start, session).Ok? <==> HoldsRecords(d, plain, start, session)
  {
    hide Indexable, PositionOf, LinesOf;
    var k := ParsesExactly(d, LinesOf(plain), start, session);
  }

  /**
   * A request passes exactly when it is admissible, and what goes to the store is what it says: the key, the range,
   * the digest of the plaintext, the key id and the body as received.
   */
  lemma ChecksAdmissible(env: Env, ring: Keyring, q: ChunkRequest)
    ensures Check(env, ring, q).Ok? <==> exists plain :: Admissible(env, ring, q, plain)
    ensures Check(env, ring, q).Ok? ==>
      var c := Check(env, ring, q).value;
      && Admissible(env, ring, q, c.plain)
      && c.row.key == Key(q.device, q.agent, q.session) && c.row.start == q.start && c.row.end == q.end
      && c.row.keyId == q.keyId && c.row.sha == Sha(env.hasher, c.plain) && c.row.size == |c.plain|
      && c.row.ciphertext == q.body
  {
    hide ParseChunkResult, HoldsRecords, Sha, ToLower;
    if plain :| Admissible(env, ring, q, plain) { RecordsParse(env.decoder, plain, q.start, q.session); }
    if Check(env, ring, q).Ok? {
      RecordsParse(env.decoder, Check(env, ring, q).value.plain, q.start, q.session);
      assert Admissible(env, ring, q, Check(env, ring, q).value.plain);
    }
  }

  /** The plaintext of a request whose form is right, as far as the guards got. */
  predicate Opens(env: Env, ring: Keyring, q: ChunkRequest, plain: Bytes) {
    q.keyId in ring && env.cipher.decrypt(ring[q.keyId], q.body) == Some(plain) && |plain| <= 71_303_168
  }

  /** What a refusal says about the request. */
  ghost predicate Explains(env: Env, ring: Keyring, q: ChunkRequest, e: UploadError) {
    match e
    case InvalidPath => q.start < 0 || q.agent != "codex" || !env.safeId(q.session)
    case InvalidEnd => q.end <= q.start
    case InvalidSize => q.plainSize != q.end - q.start || q.plainSize > 71_303_168
    case InvalidPlainSha => |q.plainSha| != 64
    case InvalidPrefixSha => |q.prefixSha| != 64
    case UnknownKey => q.keyId !in ring
    case InvalidBody => |q.body| > 69_206_016
    case Undecryptable => q.keyId in ring && forall plain :: !Opens(env, ring, q, plain)
    case LengthMismatch => exists plain :: Opens(env, ring, q, plain) && |plain| != q.plainSize
    case DigestMismatch => exists plain :: Opens(env, ring, q, plain) && Sha(env.hasher, plain) != ToLower(q.plainSha)
    case Unparsable(why) =>
      q.start >= 0
      && exists plain :: Opens(env, ring, q, plain) && Unparsed(env.decoder, plain, q.start, q.session, why)
    case Refused(_) => false
  }

  /** The plaintext is not whole lines, or record `n` is the first that cannot be indexed, for this reason. */
  ghost predicate Unparsed(d: Decoder, plain: Bytes, start: nat, session: string, why: ParseError) {
    var lines := LinesOf(plain);
    if !Terminated(plain) then why == NotLineBoundary
    else exists n: nat :: n < |lines| && FirstBad(d, lines, n, start, session, why)
  }

  ghost predicate FirstBad(d: Decoder, lines: seq<Bytes>, n: nat, start: nat, session: string, why: ParseError)
    requires n < |lines|
  {
    && Blames(d, lines[n], PositionOf(lines, start, n), session, why)
    && !Indexable(d, lines[n], PositionOf(lines, start, n), session)
    && forall m: nat :: m < n ==> Indexable(d, lines[m], PositionOf(lines, start, m), session)
  }

  lemma UnparsedIs(d: Decoder, plain: Bytes, start: nat, session: string)
    requires ParseChunkResult(d, plain, start, session).Err?
    ensures Unparsed(d, plain, start, session, ParseChunkResult(d, plain, start, session).error)
  {
    hide Indexable, PositionOf, LinesOf, Blames, ParseLines;
    if Terminated(plain) {
      var n := ParsesExactly(d, LinesOf(plain), start, session);
      assert FirstBad(d, LinesOf(plain), n, start, session, ParseChunkResult(d, plain, start, session).error);
    }
  }

  /** The order of the guards. */
  function Rank(e: UploadError): nat {
    match e
    case InvalidPath => 0
    case InvalidEnd => 1
    case InvalidSize => 2
    case InvalidPlainSha => 3
    case InvalidPrefixSha => 4
    case UnknownKey => 5
    case InvalidBody => 6
    case Undecryptable => 7
    case LengthMismatch => 8
    case DigestMismatch => 9
    case Unparsable(_) => 10
    case Refused(_) => 11
  }

  /** Every refusal by the guards is for the reason it gives, and for none that an earlier guard would have given. */
  lemma RefusalsAreExplained(env: Env, ring: Keyring, q: ChunkRequest)
    requires Check(env, ring, q).Err?
    ensures Explains(env, ring, q, Check(env, ring, q).error)
    ensures forall e :: Rank(e) < Rank(Check(env, ring, q).error) ==> !Explains(env, ring, q, e)
  {
    RefusalIsExplained(env, ring, q);
    forall e | Rank(e) < Rank(Check(env, ring, q).error)
      ensures !Explains(env, ring, q, e)
    {
      EarlierPassed(env, ring, q, e);
    }
  }

  lemma EarlierPassed(env: Env, ring: Keyring, q: ChunkRequest, e: UploadError)
    requires Check(env, ring, q).Err? && Rank(e) < Rank(Check(env, ring, q).error)
    ensures !Explains(env, ring, q, e)
  {
    hide ParseChunkResult, Sha, ToLower, Unparsed;
    if q.keyId in ring {
      var found := env.cipher.decrypt(ring[q.keyId], q.body);
      if found.Some? { assert |found.value| <= MAX_PLAIN ==> Opens(env, ring, q, found.value); }
    }
  }

  lemma RefusalIsExplained(env: Env, ring: Keyring, q: ChunkRequest)
    requires Check(env, ring, q).Err?
    ensures Explains(env, ring, q, Check(env, ring, q).error)
  {
    hide ParseChunkResult, Sha, ToLower, Unparsed;
    if Check(env, ring, q).error.Unparsable? {
      var plain := Decrypt(env.cipher, q.body, ring[q.keyId], MAX_PLAIN).value;
      UnparsedIs(env.decoder, plain, q.start, q.session);
      assert Opens(env, ring, q, plain);
    } else if q.keyId in ring {
      var found := env.cipher.decrypt(ring[q.keyId], q.body);
      if found.Some? { assert |found.value| <= MAX_PLAIN ==> Opens(env, ring, q, found.value); }
    }
  }

  // The transaction.

  /** What a refusal by the store says about the session; `archive` is its archive. */
  ghost predicate StoreExplains(env: Env, ring: Keyring, db: Db, c: ChunkRow, plain: Bytes, prefixSha: string,
                                e: StoreError) {
    var archive := ArchiveOf(env, ring, db, c.key);
    match e
    case NewSessionWithoutMetadata => c.key !in db.sessions && c.start > 0
    case ConflictingChunk => c.start < |archive| && forall i :: !DuplicateOf(db, c, i)
    case OffsetConflict => c.key in db.sessions && c.start > |archive|
    case NoPrefixState => c.start == |archive| && c.key in db.sessions && db.sessions[c.key].hashState.None?
    case PrefixMismatch => c.start == |archive| && !EqualFold(Sha(env.hasher, archive + plain), prefixSha)
    case UniqueViolation => false
  }

  lemma StoreRefusalsAreExplained(env: Env, ring: Keyring, db: Db, c: ChunkRow, plain: Bytes, prefixSha: string,
                                  parsed: Parsed)
    requires Coherent(env.decoder) && Inv(env, ring, db) && Uploaded(env, ring, c, plain, parsed)
    ensures var reply := Put(env, db, c, plain, prefixSha, parsed).reply;
      reply.Err? ==> StoreExplains(env, ring, db, c, plain, prefixSha, reply.error)
  {
    hide ParseChunkResult, InsertEvents, TablesOk, Open, EqualFold, FindChunk, SessionIdsOk, DuplicateOf, Advance,
         ReplayRows, IndexedOf, ChunksOf;
    PutKeepsInvariant(env, ring, db, c, plain, prefixSha, parsed);
    ChunkPositions(env.decoder, plain, c.start, c.key.session);
    ExtendConcat(env.hasher, env.hasher.init, ArchiveOf(env, ring, db, c.key), plain);
    assert KeyOk(env, ring, db, c.key);
    if c.key !in db.sessions { UnknownIsEmpty(env, ring, db, c.key); }
  }

  /** Whatever is sent to the server in a consistent state, a refusal names a true reason. */
  lemma UploadRefusalsAreExplained(env: Env, ring: Keyring, db: Db, q: ChunkRequest)
    requires Coherent(env.decoder) && Inv(env, ring, db)
    ensures var reply := Upload(env, ring, db, q).reply;
      reply.Err? ==>
        if reply.error.Refused? then
          && Check(env, ring, q).Ok?
          && var c := Check(env, ring, q).value;
          StoreExplains(env, ring, db, c.row, c.plain, ToLower(q.prefixSha), reply.error.cause)
        else Explains(env, ring, q, reply.error)
  {
    hide Check, Put, Explains, StoreExplains, KeyOk, TablesOk, SessionIdsOk, ToLower;
    if Check(env, ring, q).Ok? {
      var c := Check(env, ring, q).value;
      CheckedIsUploaded(env, ring, q);
      StoreRefusalsAreExplained(env, ring, db, c.row, c.plain, ToLower(q.prefixSha), c.parsed);
    } else {
      RefusalsAreExplained(env, ring, q);
      NeverRefused(env, ring, q);
    }
  }

  lemma NeverRefused(env: Env, ring: Keyring, q: ChunkRequest)
    requires Check(env, ring, q).Err?
    ensures !Check(env, ring, q).error.Refused?
  {
    hide ParseChunkResult, Sha, ToLower;
  }

  /** A session still to be backfilled: without hash state, or without metadata. */
  predicate Unfilled(row: SessionRow) {
    row.hashState.None? || row.metadataVersion < 1
  }

  /** An upload makes no session one to be backfilled; the one it appends to has its hash state. */
  lemma UploadsLeaveFilled(env: Env, ring: Keyring, db: Db, q: ChunkRequest, k: Key)
    ensures var after := Upload(env, ring, db, q).db;
      k in after.sessions && Unfilled(after.sessions[k]) ==> k in db.sessions && Unfilled(db.sessions[k])
  {
    hide Check, InsertEvents, EqualFold, FindChunk, ToLower, Later;
    if Check(env, ring, q).Ok? {
      var c := Check(env, ring, q).value;
      InsertKeepsSessions(env, db, c.row, c.parsed.events);
    }
  }

  lemma {:induction false} InsertKeepsSessions(env: Env, db: Db, c: ChunkRow, es: seq<Event>)
    ensures InsertEvents(env.trim, db, c.key, c.start, es).Some? ==>
      InsertEvents(env.trim, db, c.key, c.start, es).value.sessions == db.sessions
    decreases |es|
  {
    hide SearchText, HasEvent;
    if es != [] {
      var next := InsertEvent(env.trim, db, c.key, c.start, es[0]);
      if next.Some? { InsertKeepsSessions(env, next.value, c, es[1..]); }
    }
  }
}
