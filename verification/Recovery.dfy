/** Recovery: whatever crashed runs over append-only files leave behind, the next undisturbed run completes. */
module Recovery {
  import opened Backfill
  import opened Basics
  import opened Chunker
  import opened Convergence
  import opened Deletion
  import opened Hashing
  import opened Invariant
  import opened Lines
  import opened Plan
  import opened Protocol
  import opened Queries
  import opened Records
  import opened Replay
  import opened Server
  import opened Store
  import opened Syncer
  import opened Tables
  import opened Vault

  /** A request made by a run that had read a prefix of `file`; it may arrive late, or more than once. */
  ghost predicate MadeFrom(env: Env, ring: Keyring, db: Db, q: ChunkRequest, file: Bytes) {
    exists r: RunState, plain :: IsRequestOf(env, q, r, plain, file)
      && NoChunkCollision(env.hasher, ArchiveOf(env, ring, Upload(env, ring, db, q).db, KeyOf(q)), r.phase.read, plain)
  }

  ghost predicate IsRequestOf(env: Env, q: ChunkRequest, r: RunState, plain: Bytes, file: Bytes) {
    r.phase.Reading? && q == RunRequest(env, r, plain) && r.phase.read + plain <= file
  }

  /** Whatever the step uploads to session `k` was read from `file` as it was at some time; the file has only grown. */
  ghost predicate FromFile(env: Env, ring: Keyring, w: World, step: Step, k: Key, file: Bytes) {
    match step
    case UploadChunk(n, plain, _) =>
      n in w.runs && w.runs[n].phase.Reading? && KeyOfRun(w.runs[n]) == k ==> w.runs[n].phase.read + plain <= file
    case AnyRequest(q) => KeyOf(q) == k ==> MadeFrom(env, ring, w.db, q, file)
    case _ => true
  }

  ghost predicate AllFromFile(env: Env, ring: Keyring, w: World, steps: seq<Step>, k: Key, file: Bytes)
    decreases |steps|
  {
    steps != [] ==>
      && FromFile(env, ring, w, steps[0], k, file)
      && AllFromFile(env, ring, Next(env, ring, w, steps[0]), steps[1..], k, file)
  }

  /** An upload made from `file`, accepted or not, leaves the archive a prefix of it. */
  lemma UploadKeepsPrefix(env: Env, ring: Keyring, db: Db, r: RunState, plain: Bytes, file: Bytes)
    requires Coherent(env.decoder) && HexDigests(env.hasher) && Inv(env, ring, db) && r.phase.Reading?
    requires ArchiveOf(env, ring, db, KeyOfRun(r)) <= file && r.phase.read + plain <= file
    requires var after := RunUpload(env, ring, db, r, plain).db;
      NoChunkCollision(env.hasher, ArchiveOf(env, ring, after, KeyOfRun(r)), r.phase.read, plain)
    ensures ArchiveOf(env, ring, RunUpload(env, ring, db, r, plain).db, KeyOfRun(r)) <= file
  {
    hide Inv, ArchiveOf, NoChunkCollision, Upload;
    UploadKeepsInvariant(env, ring, db, RunRequest(env, r, plain));
    if RunUpload(env, ring, db, r, plain).db != db {
      FreshAgrees(env, ring, db, r, plain);
    }
  }

  /** An upload to another session. */
  lemma UploadElsewhere(env: Env, ring: Keyring, db: Db, q: ChunkRequest, k: Key)
    requires Coherent(env.decoder) && Inv(env, ring, db) && KeyOf(q) != k
    ensures ArchiveOf(env, ring, Upload(env, ring, db, q).db, k) == ArchiveOf(env, ring, db, k)
    ensures Ready(Upload(env, ring, db, q).db, k) <==> Ready(db, k)
  {
    hide Check, Put, KeyOk, TablesOk, SessionIdsOk, EqualFold, ToLower, ReplayRows, ChunksOf, IndexedOf;
    UploadKeepsInvariant(env, ring, db, q);
    var after := Upload(env, ring, db, q).db;
    if after != db {
      CheckedIsUploaded(env, ring, q);
      assert SameSession(db, after, k);
    }
  }

  lemma UploadKeepsReady(env: Env, ring: Keyring, db: Db, q: ChunkRequest)
    requires Ready(db, KeyOf(q))
    ensures Ready(Upload(env, ring, db, q).db, KeyOf(q))
  {
    hide Check, Put, Ready, ToLower;
    if Check(env, ring, q).Ok? {
      var c := Check(env, ring, q).value;
      CheckedIsUploaded(env, ring, q);
      PutKeepsReady(env, db, c.row, c.plain, ToLower(q.prefixSha), c.parsed);
    }
  }

  lemma RestartKeepsReady(env: Env, ring: Keyring, db: Db, rebuilt: set<Key>, k: Key)
    requires Ready(db, k)
    ensures Ready(Restarted(env, ring, db, rebuilt), k)
    ensures ArchiveOf(env, ring, Restarted(env, ring, db, rebuilt), k) == ArchiveOf(env, ring, db, k)
  {
    hide TargetOf, IsPending, ChunksOf, ReplayRows;
  }

  lemma DeleteKeepsReady(env: Env, ring: Keyring, db: Db, deleted: Key, k: Key)
    requires Inv(env, ring, db) && Ready(db, k)
    ensures var after := Delete(db, deleted).0;
      && Ready(after, k)
      && ArchiveOf(env, ring, after, k) == if k == deleted then [] else ArchiveOf(env, ring, db, k)
  {
    hide Delete, KeyOk, TablesOk, SessionIdsOk, ChunksOf, IndexedOf;
    DeleteKeepsInvariant(env, ring, db, deleted);
    if k != deleted { assert SameSession(db, Delete(db, deleted).0, k); }
  }

  /** What the server has of session `k` is a prefix of its file, and the session can take the next chunk. */
  ghost predicate InStep(env: Env, ring: Keyring, db: Db, k: Key, file: Bytes) {
    Ready(db, k) && ArchiveOf(env, ring, db, k) <= file
  }

  lemma UploadKeepsInStep(env: Env, ring: Keyring, db: Db, r: RunState, plain: Bytes, k: Key, file: Bytes)
    requires Coherent(env.decoder) && HexDigests(env.hasher) && Inv(env, ring, db) && r.phase.Reading?
    requires InStep(env, ring, db, k, file)
    requires KeyOfRun(r) == k ==>
      && r.phase.read + plain <= file
      && var after := RunUpload(env, ring, db, r, plain).db;
      NoChunkCollision(env.hasher, ArchiveOf(env, ring, after, k), r.phase.read, plain)
    ensures InStep(env, ring, RunUpload(env, ring, db, r, plain).db, k, file)
  {
    hide Inv, ArchiveOf, NoChunkCollision, Upload, Ready;
    if KeyOfRun(r) == k {
      UploadKeepsPrefix(env, ring, db, r, plain, file);
      UploadKeepsReady(env, ring, db, RunRequest(env, r, plain));
    } else {
      UploadElsewhere(env, ring, db, RunRequest(env, r, plain), k);
    }
  }

  lemma RequestKeepsInStep(env: Env, ring: Keyring, db: Db, q: ChunkRequest, k: Key, file: Bytes)
    requires Coherent(env.decoder) && HexDigests(env.hasher) && Inv(env, ring, db)
    requires InStep(env, ring, db, k, file) && (KeyOf(q) == k ==> MadeFrom(env, ring, db, q, file))
    ensures InStep(env, ring, Upload(env, ring, db, q).db, k, file)
  {
    hide Inv, ArchiveOf, NoChunkCollision, Upload, Ready, RunRequest;
    if KeyOf(q) == k {
      var r, plain :| IsRequestOf(env, q, r, plain, file)
        && NoChunkCollision(env.hasher, ArchiveOf(env, ring, Upload(env, ring, db, q).db, KeyOf(q)), r.phase.read,
                            plain);
      RequestIsUpload(env, ring, db, q, r, plain, file);
      UploadKeepsInStep(env, ring, db, r, plain, k, file);
    } else {
      UploadElsewhere(env, ring, db, q, k);
    }
  }

  lemma RequestIsUpload(env: Env, ring: Keyring, db: Db, q: ChunkRequest, r: RunState, plain: Bytes, file: Bytes)
    requires IsRequestOf(env, q, r, plain, file)
    ensures r.phase.Reading? && KeyOfRun(r) == KeyOf(q) && r.phase.read + plain <= file
    ensures RunUpload(env, ring, db, r, plain) == Upload(env, ring, db, q)
  {
    hide Upload;
  }

  lemma NextKeepsInStep(env: Env, ring: Keyring, w: World, step: Step, k: Key, file: Bytes)
    requires Coherent(env.decoder) && HexDigests(env.hasher) && Inv(env, ring, w.db)
    requires CollisionFree(env, ring, w, step) && FromFile(env, ring, w, step, k, file)
    requires InStep(env, ring, w.db, k, file)
    ensures InStep(env, ring, Next(env, ring, w, step).db, k, file)
  {
    hide Inv, ArchiveOf, NoChunkCollision, NoPrefixCollision, Upload, RunUpload, Delete, Restarted, Ready, MadeFrom,
         OpensAt, CheckpointOf, ReplyError;
    match step
    case PlanRun(n, client, session) =>
    case OpenFile(n, prefix) =>
    case UploadChunk(n, plain, heard) =>
      if n in w.runs && w.runs[n].phase.Reading? {
        UploadKeepsInStep(env, ring, w.db, w.runs[n], plain, k, file);
      }
    case AnyRequest(q) => RequestKeepsInStep(env, ring, w.db, q, k, file);
    case DeleteKey(d) => DeleteKeepsReady(env, ring, w.db, d, k);
    case Restart(rebuilt) => RestartKeepsReady(env, ring, w.db, rebuilt, k);
    case AbortRun(n) =>
  }

  /** Runs over a growing file, crashing and retrying anywhere, never put anything but a prefix of it on the server. */
  lemma {:induction false} ExecutionKeepsInStep(env: Env, ring: Keyring, w: World, steps: seq<Step>, k: Key,
                                                file: Bytes)
    requires Coherent(env.decoder) && HexDigests(env.hasher) && Inv(env, ring, w.db)
    requires AllCollisionFree(env, ring, w, steps) && AllFromFile(env, ring, w, steps, k, file)
    requires InStep(env, ring, w.db, k, file)
    ensures var after := Execute(env, ring, w, steps).db; Inv(env, ring, after) && InStep(env, ring, after, k, file)
    decreases |steps|
  {
    hide Inv, InStep, Next, CollisionFree, FromFile;
    if steps != [] {
      NextExtends(env, ring, w, steps[0], k);
      NextKeepsInStep(env, ring, w, steps[0], k, file);
      ExecutionKeepsInStep(env, ring, Next(env, ring, w, steps[0]), steps[1..], k, file);
    }
  }

  lemma {:induction false} SendsFailOnlyUploading(link: Link, db: Db, session: string, read: Bytes, chunks: seq<Bytes>)
    ensures var e := SendChunks(link, db, session, read, chunks).error;
      e != Some(SourceTooShort) && e != Some(PrefixRewritten)
    decreases |chunks|
  {
    hide SendOne, NextRequest;
    if chunks != [] {
      var after := Deliver(link, db, session, read, chunks[0]).db;
      SendsFailOnlyUploading(link, after, session, read + chunks[0], chunks[1..]);
    }
  }

  /**
   * A truncated or rewritten prefix fails explicitly, and only that does: the client refuses with one of these
   * two errors exactly when its file no longer starts with the archive, and then uploads nothing.
   */
  lemma RewrittenIsRefused(link: Link, db: Db, session: string, contents: Bytes)
    requires HexDigests(link.env.hasher) && Inv(link.env, link.ring, db) && Ready(db, KeyIn(link, session))
    requires var archive := ArchiveOf(link.env, link.ring, db, KeyIn(link, session));
      |archive| <= |contents| ==> NoCollision(link.env.hasher, contents[..|archive|], archive)
    ensures var k := KeyIn(link, session);
      var archive, checkpoint := ArchiveOf(link.env, link.ring, db, k), CheckpointOf(link.env, db, k);
      && checkpoint.Ok?
      && var s := SyncFile(link, db, session, contents, checkpoint.value);
      && (s.error == Some(SourceTooShort) || s.error == Some(PrefixRewritten) <==> !(archive <= contents))
      && (!(archive <= contents) ==> s.db == db && s.chunks == 0)
  {
    hide Inv, KeyOk, Ready, ArchiveOf, CheckpointOf, Sha, EqualFold, SendChunks, CutText;
    var env, k := link.env, KeyIn(link, session);
    InvOfKey(env, link.ring, db, k);
    CheckpointIsPrefix(env, link.ring, db, k);
    var archive := ArchiveOf(env, link.ring, db, k);
    assert archive <= contents <==> |archive| <= |contents| && contents[..|archive|] == archive;
    if |archive| <= |contents| {
      FoldReflexive(Sha(env.hasher, archive));
      if EqualFold(Sha(env.hasher, contents[..|archive|]), Sha(env.hasher, archive)) {
        SameDigestUpToCase(env.hasher, contents[..|archive|], archive);
      }
      SendsFailOnlyUploading(link, db, session, contents[..|archive|], CutText(contents[|archive|..]).chunks);
    }
  }

  /** A file of whole valid records of bearable length, possibly with an unfinished one at its end. */
  ghost predicate Uploadable(env: Env, session: string, contents: Bytes) {
    && env.safeId(session)
    && ParseLines(env.decoder, LinesOf(contents), 0, session).Ok?
    && Fits(LinesOf(contents), TailOf(contents))
  }

  /**
   * A list of sources as discovered: distinct sessions, not too many, each with its file's size at that time. The
   * file may have grown when it is read.
   */
  ghost predicate Discovered(sources: seq<Source>) {
    && |sources| <= MAX_MANIFEST_SESSIONS && DistinctIds(sources)
    && forall i :: 0 <= i < |sources| ==> 0 <= sources[i].size <= |sources[i].contents|
  }

  /** The file as it was when it was listed. */
  function ContentsListed(source: Source): Bytes {
    if 0 <= source.size <= |source.contents| then source.contents[..source.size] else source.contents
  }

  lemma PrefixOfListed(archive: Bytes, contents: Bytes, size: nat)
    requires size <= |contents| && archive <= contents[..size]
    ensures archive <= contents && |archive| <= size
  {
  }

  /**
   * Crash convergence. Let any number of runs over these files happen, with files growing, replies lost,
   * requests arriving late or twice, runs stopping anywhere, sessions deleted and the server restarted, and no
   * hash collisions. Then the files are listed, may go on growing, and one undisturbed run succeeds and leaves
   * every file archived to its last newline, reporting exactly the growth; and one more run over the same files,
   * listed again, uploads nothing and changes nothing.
   */
  lemma CrashConvergence(link: Link, start: World, steps: seq<Step>, sources: seq<Source>, again: seq<Source>)
    requires Working(link) && Inv(link.env, link.ring, start.db) && Discovered(sources)
    requires AllCollisionFree(link.env, link.ring, start, steps)
    requires forall i :: 0 <= i < |sources| ==>
      && Uploadable(link.env, sources[i].sessionId, sources[i].contents)
      && InStep(link.env, link.ring, start.db, KeyIn(link, sources[i].sessionId), ContentsListed(sources[i]))
      && AllFromFile(link.env, link.ring, start, steps, KeyIn(link, sources[i].sessionId), ContentsListed(sources[i]))
    ensures var db := Execute(link.env, link.ring, start, steps).db;
      var r := RunOutcome(link, db, sources);
      && PlanAccepts(link.env, db, link.client.device, AGENT, ManifestOf(sources))
      && r.error == None
      && Inv(link.env, link.ring, r.db)
      && UpToDate(link, r.db, sources)
      && OthersUntouched(link, db, r.db, sources)
      && r.bytes == Growth(link, db, sources)
      && r.sessions == Behind(link, db, sources)
      && (Relisted(sources, again) ==>
            && PlanAccepts(link.env, r.db, link.client.device, AGENT, ManifestOf(again))
            && RunOutcome(link, r.db, again) == Ran(r.db, 0, 0, 0, None))
  {
    hide Inv, Execute, AllCollisionFree, AllFromFile, RunOutcome, PlanAccepts, UpToDate, OthersUntouched, Growth,
         Behind, ArchiveOf, Ready, ParseLines, LinesOf, TailOf, Fits, ManifestOf;
    var db := Execute(link.env, link.ring, start, steps).db;
    ExecutionKeepsInvariant(link.env, link.ring, start, steps);
    forall i | 0 <= i < |sources|
      ensures Syncable(link, db, sources[i].sessionId, sources[i].contents)
      ensures sources[i].size >= |ArchiveOf(link.env, link.ring, db, KeyIn(link, sources[i].sessionId))|
    {
      var k, listed := KeyIn(link, sources[i].sessionId), ContentsListed(sources[i]);
      ExecutionKeepsInStep(link.env, link.ring, start, steps, k, listed);
      PrefixOfListed(ArchiveOf(link.env, link.ring, db, k), sources[i].contents, sources[i].size);
    }
    RunConverges(link, db, sources);
    if Relisted(sources, again) { RerunUploadsNothing(link, db, sources, again); }
  }
}
