/**
 * The sync protocol as a state machine: any number of runs, of any devices, with plans of any age, over files
 * that are appended to or rewritten at any time; lost replies, redelivered requests, deletes and restarts.
 */
module Protocol {
  import opened Backfill
  import opened Basics
  import opened Chunker
  import opened Deletion
  import opened Hashing
  import opened Invariant
  import opened Queries
  import opened Records
  import opened Replay
  import opened Server
  import opened Store
  import opened Syncer
  import opened Tables
  import opened Vault

  /**
   * One session's part of a run: planned, then reading and uploading. `read` is what it has read and had
   * acknowledged.
   */
  datatype Phase = Opening(checkpoint: Checkpoint) | Reading(read: Bytes)

  datatype RunState = RunState(client: Client, session: string, generation: nat, phase: Phase)

  /** `generations` counts the deletes of each session. */
  datatype World = World(db: Db, generations: map<Key, nat>, runs: map<nat, RunState>)

  /**
   * `OpenFile` and `UploadChunk` carry the bytes the run finds in its file at that moment, whatever they are.
   * An upload whose reply is not heard still reaches the server. `AnyRequest` is a request from anywhere, so
   * also an earlier one delivered again.
   */
  datatype Step =
    | PlanRun(run: nat, client: Client, session: string)
    | OpenFile(run: nat, prefix: Bytes)
    | UploadChunk(run: nat, plain: Bytes, heard: bool)
    | AnyRequest(request: ChunkRequest)
    | DeleteKey(key: Key)
    | Restart(rebuilt: set<Key>)
    | AbortRun(run: nat)

  function KeyOfRun(r: RunState): Key {
    Key(r.client.device, AGENT, r.session)
  }

  function Generation(w: World, k: Key): nat {
    if k in w.generations then w.generations[k] else 0
  }

  /** The request of a run that goes on with `plain`. */
  function RunRequest(env: Env, r: RunState, plain: Bytes): ChunkRequest
    requires r.phase.Reading?
  {
    RequestFor(env, r.client, r.session, |r.phase.read|, plain, Sha(env.hasher, r.phase.read + plain))
  }

  function RunUpload(env: Env, ring: Keyring, db: Db, r: RunState, plain: Bytes): UploadOutcome
    requires r.phase.Reading?
  {
    Upload(env, ring, db, RunRequest(env, r, plain))
  }

  /** The tables after a restart whose backfill got as far as the pending sessions in `rebuilt`. */
  function Restarted(env: Env, ring: Keyring, db: Db, rebuilt: set<Key>): Db {
    db.(sessions := map k | k in db.sessions ::
          if k in rebuilt && IsPending(db.sessions[k]) && TargetOf(env, ring, db, k).Some?
          then Filled(db.sessions[k], TargetOf(env, ring, db, k).value)
          else db.sessions[k])
  }

  /** The file is as long as the checkpoint says, has its digest, and breaks at a line boundary there. */
  predicate OpensAt(env: Env, prefix: Bytes, checkpoint: Checkpoint) {
    |prefix| == checkpoint.nextOffset && EqualFold(Sha(env.hasher, prefix), checkpoint.prefixSha) && LineAligned(prefix)
  }

  /** One step; a step of a run that is not there, or not in the right phase, does nothing. */
  function Next(env: Env, ring: Keyring, w: World, step: Step): World {
    match step
    case PlanRun(n, client, session) =>
      var k := Key(client.device, AGENT, session);
      var found := CheckpointOf(env, w.db, k);
      if n in w.runs || found.Err? then w
      else w.(runs := w.runs[n := RunState(client, session, Generation(w, k), Opening(found.value))])
    case OpenFile(n, prefix) =>
      if n !in w.runs || !w.runs[n].phase.Opening? then w
      else if OpensAt(env, prefix, w.runs[n].phase.checkpoint) then
        w.(runs := w.runs[n := w.runs[n].(phase := Reading(prefix))])
      else w.(runs := w.runs - {n})
    case UploadChunk(n, plain, heard) =>
      if n !in w.runs || !w.runs[n].phase.Reading? then w
      else
        var grown := w.runs[n].phase.read + plain;
        var o := RunUpload(env, ring, w.db, w.runs[n], plain);
        if heard && ReplyError(o.reply, |grown|).None? then
          w.(db := o.db, runs := w.runs[n := w.runs[n].(phase := Reading(grown))])
        else w.(db := o.db, runs := w.runs - {n})
    case AnyRequest(q) => w.(db := Upload(env, ring, w.db, q).db)
    case DeleteKey(k) =>
      w.(db := Delete(w.db, k).0,
         generations := if k in w.db.sessions then w.generations[k := Generation(w, k) + 1] else w.generations)
    case Restart(rebuilt) => w.(db := Restarted(env, ring, w.db, rebuilt))
    case AbortRun(n) => w.(runs := w.runs - {n})
  }

  function Execute(env: Env, ring: Keyring, w: World, steps: seq<Step>): World
    decreases |steps|
  {
    if steps == [] then w else Execute(env, ring, Next(env, ring, w, steps[0]), steps[1..])
  }

  // Hash collisions. The only assumption about the digest, made pair by pair where digests are compared.

  ghost predicate NoCollision(h: Hasher, a: Bytes, b: Bytes) {
    Sha(h, a) == Sha(h, b) ==> a == b
  }

  /** What is archived where an acknowledged chunk says it is does not collide with what the run read. */
  ghost predicate NoChunkCollision(h: Hasher, archive: Bytes, read: Bytes, plain: Bytes) {
    |read + plain| <= |archive| ==>
      && NoCollision(h, archive[..|read + plain|], read + plain)
      && NoCollision(h, archive[|read|..|read + plain|], plain)
  }

  /** What is archived up to a checkpoint does not collide with what the run finds there. */
  ghost predicate NoPrefixCollision(h: Hasher, archive: Bytes, prefix: Bytes) {
    |prefix| <= |archive| ==> NoCollision(h, prefix, archive[..|prefix|])
  }

  ghost predicate CollisionFree(env: Env, ring: Keyring, w: World, step: Step) {
    match step
    case OpenFile(n, prefix) =>
      n in w.runs ==>
        NoPrefixCollision(env.hasher, ArchiveOf(env, ring, w.db, KeyOfRun(w.runs[n])), prefix)
    case UploadChunk(n, plain, _) =>
      n in w.runs && w.runs[n].phase.Reading? ==>
        var after := RunUpload(env, ring, w.db, w.runs[n], plain).db;
        NoChunkCollision(env.hasher, ArchiveOf(env, ring, after, KeyOfRun(w.runs[n])), w.runs[n].phase.read, plain)
    case _ => true
  }

  ghost predicate AllCollisionFree(env: Env, ring: Keyring, w: World, steps: seq<Step>)
    decreases |steps|
  {
    steps != [] ==>
      && CollisionFree(env, ring, w, steps[0])
      && AllCollisionFree(env, ring, Next(env, ring, w, steps[0]), steps[1..])
  }

  // Acknowledgements.

  lemma SameDigest(h: Hasher, a: Bytes, b: Bytes)
    requires HexDigests(h) && EqualFold(Sha(h, a), ToLower(Sha(h, b)))
    ensures Sha(h, a) == Sha(h, b)
  {
  }

  lemma LowerDigest(h: Hasher, a: Bytes)
    requires HexDigests(h)
    ensures ToLower(Sha(h, a)) == Sha(h, a)
  {
  }

  /** The stored chunk an acknowledged upload was matched with, as a slice of the archive. */
  lemma AcknowledgedSlice(env: Env, ring: Keyring, db: Db, q: ChunkRequest)
    requires Coherent(env.decoder) && Inv(env, ring, db) && Upload(env, ring, db, q).reply.Ok?
    ensures var archive := ArchiveOf(env, ring, Upload(env, ring, db, q).db, KeyOf(q));
      0 <= q.start < q.end <= |archive| && Sha(env.hasher, archive[q.start..q.end]) == ToLower(q.plainSha)
  {
    hide Check, Put, TablesOk, SessionIdsOk, EqualFold, ToLower, ReplayRows, ChunksOf, IndexedOf, Sha, Tiles;
    var after := Upload(env, ring, db, q).db;
    var i := AcknowledgedIsStored(env, ring, db, q);
    CheckedIsUploaded(env, ring, q);
    CheckedSha(env, ring, q);
    UploadKeepsInvariant(env, ring, db, q);
    assert KeyOk(env, ring, after, KeyOf(q));
    ArchiveIsTiled(env, ring, after, KeyOf(q));
    TileDigest(env, ring, ChunksOf(after.chunks, KeyOf(q)), ArchiveOf(env, ring, after, KeyOf(q)), i);
  }

  lemma TileDigest(env: Env, ring: Keyring, rows: seq<ChunkRow>, archive: Bytes, i: nat)
    requires Tiles(env, ring, rows, archive) && i < |rows|
    ensures rows[i].start < rows[i].end <= |archive|
    ensures Sha(env.hasher, archive[rows[i].start..rows[i].end]) == rows[i].sha
  {
  }

  /** The server acknowledges `plain` to the run, and no digests collide where it is stored. */
  ghost predicate Acknowledged(env: Env, ring: Keyring, db: Db, r: RunState, plain: Bytes)
    requires r.phase.Reading?
  {
    var o := RunUpload(env, ring, db, r, plain);
    && o.reply.Ok?
    && NoChunkCollision(env.hasher, ArchiveOf(env, ring, o.db, KeyOfRun(r)), r.phase.read, plain)
  }

  /**
   * A chunk acknowledged as new: the whole archive is then what the run has read. So a rewritten history is
   * never joined to the stored one, whatever happened to the session during the run.
   */
  lemma FreshAgrees(env: Env, ring: Keyring, db: Db, r: RunState, plain: Bytes)
    requires Coherent(env.decoder) && HexDigests(env.hasher) && Inv(env, ring, db) && r.phase.Reading?
    requires Acknowledged(env, ring, db, r, plain) && !RunUpload(env, ring, db, r, plain).reply.value.duplicate
    ensures ArchiveOf(env, ring, RunUpload(env, ring, db, r, plain).db, KeyOfRun(r)) == r.phase.read + plain
  {
    hide Check, Put, KeyOk, TablesOk, SessionIdsOk, EqualFold, ToLower, ReplayRows, ChunksOf, IndexedOf, Sha;
    var read := r.phase.read;
    var q := RunRequest(env, r, plain);
    UploadKeepsInvariant(env, ring, db, q);
    CheckedIsUploaded(env, ring, q);
    var archive := ArchiveOf(env, ring, Upload(env, ring, db, q).db, KeyOf(q));
    SameDigest(env.hasher, archive, read + plain);
    assert archive[..|archive|] == archive;
  }

  /** What is stored at the place of an acknowledged chunk is that chunk, new or duplicate. */
  lemma StoredChunkAgrees(env: Env, ring: Keyring, db: Db, r: RunState, plain: Bytes)
    requires Coherent(env.decoder) && HexDigests(env.hasher) && Inv(env, ring, db) && r.phase.Reading?
    requires Acknowledged(env, ring, db, r, plain)
    ensures var archive := ArchiveOf(env, ring, RunUpload(env, ring, db, r, plain).db, KeyOfRun(r));
      && |r.phase.read + plain| <= |archive|
      && archive[|r.phase.read|..|r.phase.read + plain|] == plain
  {
    hide Upload, KeyOk, TablesOk, SessionIdsOk, ReplayRows, Sha, Inv;
    var read := r.phase.read;
    LowerDigest(env.hasher, plain);
    AcknowledgedSlice(env, ring, db, RunRequest(env, r, plain));
  }

  /**
   * A duplicate is acknowledged without looking at the prefix digest. The run then agrees with the archive
   * exactly when the digest it sent is that of the archive up to the chunk's end, which the server could check.
   */
  lemma DuplicateAgreesExactly(env: Env, ring: Keyring, db: Db, r: RunState, plain: Bytes)
    requires Coherent(env.decoder) && HexDigests(env.hasher) && Inv(env, ring, db) && r.phase.Reading?
    requires Acknowledged(env, ring, db, r, plain) && RunUpload(env, ring, db, r, plain).reply.value.duplicate
    ensures var archive, grown := ArchiveOf(env, ring, db, KeyOfRun(r)), r.phase.read + plain;
      && RunUpload(env, ring, db, r, plain).db == db
      && |grown| <= |archive|
      && (grown <= archive <==> Sha(env.hasher, archive[..|grown|]) == Sha(env.hasher, grown))
      && (grown <= archive <==> r.phase.read <= archive)
  {
    hide Check, Put, KeyOk, TablesOk, SessionIdsOk, EqualFold, ToLower, ReplayRows, ChunksOf, IndexedOf, Sha;
    var read := r.phase.read;
    StoredChunkAgrees(env, ring, db, r, plain);
    var q := RunRequest(env, r, plain);
    UploadKeepsInvariant(env, ring, db, q);
    PrefixInParts(read, plain, ArchiveOf(env, ring, db, KeyOfRun(r)));
  }

  lemma PrefixInParts<T>(a: seq<T>, b: seq<T>, c: seq<T>)
    requires |a + b| <= |c| && c[|a|..|a + b|] == b
    ensures a <= c <==> a + b <= c
    ensures a + b <= c <==> c[..|a + b|] == a + b
  {
    assert c[..|a|] + c[|a|..|a + b|] == c[..|a + b|];
    DropLeft(a, b);
    if a + b <= c { assert c[..|a|] == (a + b)[..|a|]; }
  }

  // Safety.

  /**
   * While its session has not been deleted, a run agrees with the archive: on the checkpoint, then on all it had
   * acknowledged.
   */
  ghost predicate RunOk(env: Env, ring: Keyring, w: World, r: RunState) {
    var archive := ArchiveOf(env, ring, w.db, KeyOfRun(r));
    && r.generation <= Generation(w, KeyOfRun(r))
    && (r.generation == Generation(w, KeyOfRun(r)) ==>
          match r.phase
          case Opening(c) => c.nextOffset <= |archive| && c.prefixSha == Sha(env.hasher, archive[..c.nextOffset])
          case Reading(read) => read <= archive)
  }

  ghost predicate Safe(env: Env, ring: Keyring, w: World) {
    Inv(env, ring, w.db) && forall n :: n in w.runs ==> RunOk(env, ring, w, w.runs[n])
  }

  lemma RestartBackfills(env: Env, ring: Keyring, db: Db, rebuilt: set<Key>) returns (done: set<Key>)
    ensures BackfilledIn(env, ring, db, Restarted(env, ring, db, rebuilt), done)
  {
    hide TargetOf, Filled, IsPending;
    done := set k | k in rebuilt && k in db.sessions && IsPending(db.sessions[k]) && TargetOf(env, ring, db, k).Some?;
  }

  /** And what a startup backfill does, finished or not, is such a restart. */
  lemma BackfillIsRestart(env: Env, ring: Keyring, before: Db, after: Db, done: set<Key>)
    requires BackfilledIn(env, ring, before, after, done)
    ensures after == Restarted(env, ring, before, done)
  {
    hide TargetOf, Filled, IsPending;
    assert after.sessions == Restarted(env, ring, before, done).sessions;
  }

  /** Restarting keeps every archive and every index. */
  lemma RestartExtends(env: Env, ring: Keyring, db: Db, rebuilt: set<Key>, k: Key)
    ensures Extends(env, ring, db, Restarted(env, ring, db, rebuilt), k)
  {
    hide TargetOf, Filled, IsPending, ReplayRows, ChunksOf;
  }

  lemma DeleteExtendsOthers(env: Env, ring: Keyring, db: Db, deleted: Key, k: Key)
    requires Inv(env, ring, db) && k != deleted
    ensures Extends(env, ring, db, Delete(db, deleted).0, k)
  {
    hide Delete, KeyOk, TablesOk, SessionIdsOk, ReplayRows, ChunksOf, IndexedOf;
    DeleteKeepsInvariant(env, ring, db, deleted);
    SameView(env, ring, db, Delete(db, deleted).0, deleted, k);
  }

  /** Whatever happens, the tables stay consistent, and a session only ever grows unless it is deleted. */
  lemma NextExtends(env: Env, ring: Keyring, w: World, step: Step, k: Key)
    requires Coherent(env.decoder) && Inv(env, ring, w.db)
    ensures Inv(env, ring, Next(env, ring, w, step).db)
    ensures step != DeleteKey(k) || k !in w.db.sessions ==> Extends(env, ring, w.db, Next(env, ring, w, step).db, k)
  {
    hide Upload, Delete, Inv, Extends, Restarted, OpensAt, CheckpointOf, ReplyError;
    ExtendsItself(env, ring, w.db, k);
    match step
    case PlanRun(n, client, session) =>
    case OpenFile(n, prefix) =>
    case UploadChunk(n, plain, heard) =>
      if n in w.runs && w.runs[n].phase.Reading? {
        var r := w.runs[n];
        var q := RunRequest(env, r, plain);
        UploadKeepsInvariant(env, ring, w.db, q);
        UploadExtends(env, ring, w.db, q, k);
      }
    case AnyRequest(q) =>
      UploadKeepsInvariant(env, ring, w.db, q);
      UploadExtends(env, ring, w.db, q, k);
    case DeleteKey(d) =>
      DeleteKeepsInvariant(env, ring, w.db, d);
      if d != k { DeleteExtendsOthers(env, ring, w.db, d, k); }
    case Restart(rebuilt) =>
      var done := RestartBackfills(env, ring, w.db, rebuilt);
      BackfillKeepsInvariant(env, ring, w.db, Restarted(env, ring, w.db, rebuilt), done);
      RestartExtends(env, ring, w.db, rebuilt, k);
    case AbortRun(n) =>
  }

  lemma ExtendsItself(env: Env, ring: Keyring, db: Db, k: Key)
    ensures Extends(env, ring, db, db, k)
  {
  }

  /** A run that is not stepped itself stays in agreement. */
  lemma BystanderOk(env: Env, ring: Keyring, w: World, step: Step, r: RunState)
    requires Coherent(env.decoder) && Inv(env, ring, w.db) && RunOk(env, ring, w, r)
    ensures RunOk(env, ring, Next(env, ring, w, step), r)
  {
    hide Upload, Delete, Inv, Restarted, OpensAt, CheckpointOf, ReplyError, ReplayRows, ChunksOf, IndexedOf, Sha;
    var k := KeyOfRun(r);
    NextExtends(env, ring, w, step, k);
    GenerationGrows(env, ring, w, step, k);
    if (step != DeleteKey(k) || k !in w.db.sessions) && r.phase.Opening? {
      var n, archive := r.phase.checkpoint.nextOffset, ArchiveOf(env, ring, w.db, k);
      if n <= |archive| { assert ArchiveOf(env, ring, Next(env, ring, w, step).db, k)[..n] == archive[..n]; }
    }
  }

  lemma GenerationGrows(env: Env, ring: Keyring, w: World, step: Step, k: Key)
    ensures Generation(Next(env, ring, w, step), k)
         == Generation(w, k) + if step == DeleteKey(k) && k in w.db.sessions then 1 else 0
  {
    hide Upload, Delete, Restarted, OpensAt, CheckpointOf, ReplyError, RunUpload;
  }

  /** The step of a run itself. */
  lemma OwnStepOk(env: Env, ring: Keyring, w: World, step: Step, n: nat)
    requires Coherent(env.decoder) && HexDigests(env.hasher) && Safe(env, ring, w) && CollisionFree(env, ring, w, step)
    requires step.PlanRun? || step.OpenFile? || step.UploadChunk?
    requires step.run == n && n in Next(env, ring, w, step).runs
    ensures RunOk(env, ring, Next(env, ring, w, step), Next(env, ring, w, step).runs[n])
  {
    hide Upload, TablesOk, SessionIdsOk, ReplayRows, ChunksOf, IndexedOf, Sha, KeyOk, RunUpload, EqualFold, Generation;
    var after := Next(env, ring, w, step);
    var k := KeyOfRun(after.runs[n]);
    GenerationGrows(env, ring, w, step, k);
    match step
    case PlanRun(_, client, session) =>
      if n !in w.runs { CheckpointHolds(env, ring, w.db, k); }
    case OpenFile(_, prefix) =>
      if n in w.runs && w.runs[n].phase.Opening? && OpensAt(env, prefix, w.runs[n].phase.checkpoint) {
        OpenedAgrees(env, w.runs[n].phase.checkpoint, prefix, ArchiveOf(env, ring, w.db, KeyOfRun(w.runs[n])));
      }
    case UploadChunk(_, plain, heard) =>
      if n in w.runs && w.runs[n].phase.Reading? {
        AcknowledgedAgrees(env, ring, w.db, w.runs[n], plain);
      }
  }

  lemma CheckpointHolds(env: Env, ring: Keyring, db: Db, k: Key)
    requires Inv(env, ring, db) && CheckpointOf(env, db, k).Ok?
    ensures var c, archive := CheckpointOf(env, db, k).value, ArchiveOf(env, ring, db, k);
      c.nextOffset == |archive| && c.prefixSha == Sha(env.hasher, archive[..c.nextOffset])
  {
    hide KeyOk, TablesOk, SessionIdsOk, ReplayRows, ChunksOf, CheckpointOf, Sha;
    assert KeyOk(env, ring, db, k);
    CheckpointIsPrefix(env, ring, db, k);
    var archive := ArchiveOf(env, ring, db, k);
    assert archive[..|archive|] == archive;
  }

  /** A file that passes the prefix check of a still valid checkpoint starts with the archive as it was planned. */
  lemma OpenedAgrees(env: Env, c: Checkpoint, prefix: Bytes, archive: Bytes)
    requires HexDigests(env.hasher) && OpensAt(env, prefix, c)
    requires NoPrefixCollision(env.hasher, archive, prefix)
    ensures c.nextOffset <= |archive| && c.prefixSha == Sha(env.hasher, archive[..c.nextOffset]) ==> prefix <= archive
  {
    if c.nextOffset <= |archive| && c.prefixSha == Sha(env.hasher, archive[..c.nextOffset]) {
      SameDigestUpToCase(env.hasher, prefix, archive[..c.nextOffset]);
    }
  }

  lemma SameDigestUpToCase(h: Hasher, a: Bytes, b: Bytes)
    requires HexDigests(h) && EqualFold(Sha(h, a), Sha(h, b))
    ensures Sha(h, a) == Sha(h, b)
  {
  }

  /**
   * Any acknowledgement, new or duplicate, of a chunk that continues an agreed prefix: the archive then
   * starts with everything the run has read.
   */
  lemma AcknowledgedAgrees(env: Env, ring: Keyring, db: Db, r: RunState, plain: Bytes)
    requires Coherent(env.decoder) && HexDigests(env.hasher) && Inv(env, ring, db) && r.phase.Reading?
    requires var o := RunUpload(env, ring, db, r, plain);
      NoChunkCollision(env.hasher, ArchiveOf(env, ring, o.db, KeyOfRun(r)), r.phase.read, plain)
    ensures var o := RunUpload(env, ring, db, r, plain);
      o.reply.Ok? && r.phase.read <= ArchiveOf(env, ring, db, KeyOfRun(r)) ==>
        r.phase.read + plain <= ArchiveOf(env, ring, o.db, KeyOfRun(r))
  {
    hide RunUpload, Inv, ArchiveOf, NoChunkCollision;
    var o := RunUpload(env, ring, db, r, plain);
    if o.reply.Ok? {
      if o.reply.value.duplicate {
        DuplicateAgreesExactly(env, ring, db, r, plain);
      } else {
        FreshAgrees(env, ring, db, r, plain);
      }
    }
  }

  lemma NextIsSafe(env: Env, ring: Keyring, w: World, step: Step)
    requires Coherent(env.decoder) && HexDigests(env.hasher) && Safe(env, ring, w) && CollisionFree(env, ring, w, step)
    ensures Safe(env, ring, Next(env, ring, w, step))
  {
    hide Inv, RunOk, CollisionFree, RunUpload, Upload, Delete, Restarted, OpensAt, CheckpointOf, ReplyError;
    NextExtends(env, ring, w, step, Key("", "", ""));
    var after := Next(env, ring, w, step);
    forall n | n in after.runs
      ensures RunOk(env, ring, after, after.runs[n])
    {
      if (step.PlanRun? || step.OpenFile? || step.UploadChunk?) && step.run == n {
        OwnStepOk(env, ring, w, step, n);
      } else {
        BystanderOk(env, ring, w, step, w.runs[n]);
      }
    }
  }

  /**
   * Safety of the protocol. In every interleaving, from every safe start, as long as digests do not collide
   * where they are compared: the tables are consistent, and every run whose session has not been deleted since
   * its plan agrees with the archive on everything it has read and had acknowledged.
   */
  lemma {:induction false} ExecutionIsSafe(env: Env, ring: Keyring, w: World, steps: seq<Step>)
    requires Coherent(env.decoder) && HexDigests(env.hasher) && Safe(env, ring, w)
    requires AllCollisionFree(env, ring, w, steps)
    ensures Safe(env, ring, Execute(env, ring, w, steps))
    decreases |steps|
  {
    hide Safe, CollisionFree, Next;
    if steps != [] {
      NextIsSafe(env, ring, w, steps[0]);
      ExecutionIsSafe(env, ring, Next(env, ring, w, steps[0]), steps[1..]);
    }
  }

  /** Every reachable state of the tables satisfies the invariant, with no assumption about digests at all. */
  lemma {:induction false} ExecutionKeepsInvariant(env: Env, ring: Keyring, w: World, steps: seq<Step>)
    requires Coherent(env.decoder) && Inv(env, ring, w.db)
    ensures Inv(env, ring, Execute(env, ring, w, steps).db)
    decreases |steps|
  {
    hide Inv, Next;
    if steps != [] {
      NextExtends(env, ring, w, steps[0], Key("", "", ""));
      ExecutionKeepsInvariant(env, ring, Next(env, ring, w, steps[0]), steps[1..]);
    }
  }

  // Growth.

  lemma ExtendsTransitive(env: Env, ring: Keyring, a: Db, b: Db, c: Db, k: Key)
    requires Extends(env, ring, a, b, k) && Extends(env, ring, b, c, k)
    ensures Extends(env, ring, a, c, k)
  {
  }

  /** Without a delete of session `k` everything stored of it stays, in place. */
  lemma {:induction false} ExecutionExtends(env: Env, ring: Keyring, w: World, steps: seq<Step>, k: Key)
    requires Coherent(env.decoder) && Inv(env, ring, w.db) && DeleteKey(k) !in steps
    ensures Inv(env, ring, Execute(env, ring, w, steps).db)
    ensures Extends(env, ring, w.db, Execute(env, ring, w, steps).db, k)
    decreases |steps|
  {
    hide Inv, Next, Extends;
    if steps == [] {
      ExtendsItself(env, ring, w.db, k);
    } else {
      var after := Next(env, ring, w, steps[0]);
      NextExtends(env, ring, w, steps[0], k);
      ExecutionExtends(env, ring, after, steps[1..], k);
      ExtendsTransitive(env, ring, w.db, after.db, Execute(env, ring, after, steps[1..]).db, k);
    }
  }

  /**
   * Redelivery. After a chunk has been acknowledged and any further steps without a delete of its session, the
   * same request delivered again, and any other for the same chunk, is a duplicate with the same next offset, and
   * changes nothing.
   */
  lemma RedeliveryChangesNothing(env: Env, ring: Keyring, w: World, q: ChunkRequest, steps: seq<Step>,
                                 again: ChunkRequest)
    requires Coherent(env.decoder) && Inv(env, ring, w.db) && Upload(env, ring, w.db, q).reply.Ok?
    requires DeleteKey(KeyOf(q)) !in steps && (again == q || SameChunk(env, ring, q, again))
    ensures var later := Execute(env, ring, Next(env, ring, w, AnyRequest(q)), steps);
      && Upload(env, ring, later.db, again) == UploadOutcome(later.db, Ok(UploadReply(q.end, true)))
      && Next(env, ring, later, AnyRequest(again)) == later
  {
    hide Inv, Upload, Extends, Execute, SameChunk;
    AcknowledgedMayRepeat(env, ring, w.db, q);
    var after := Next(env, ring, w, AnyRequest(q));
    NextExtends(env, ring, w, AnyRequest(q), KeyOf(q));
    ExecutionExtends(env, ring, after, steps, KeyOf(q));
    ReplayIsIdempotent(env, ring, w.db, q, Execute(env, ring, after, steps).db, again);
  }

  // The promise to a run.

  lemma StartIsSafe(env: Env, ring: Keyring, db: Db)
    requires Inv(env, ring, db)
    ensures Safe(env, ring, World(db, map[], map[]))
  {
  }

  /**
   * After any interleaving without hash collisions, an upload acknowledged to a run, as new or as duplicate,
   * means that the archive starts with everything the run has read, this chunk included; provided its session
   * has not been deleted since the run was planned.
   */
  lemma AcknowledgedToRun(env: Env, ring: Keyring, start: Db, steps: seq<Step>, w: World, n: nat, r: RunState,
                          plain: Bytes, o: UploadOutcome)
    requires Coherent(env.decoder) && HexDigests(env.hasher) && Inv(env, ring, start)
    requires AllCollisionFree(env, ring, World(start, map[], map[]), steps)
    requires w == Execute(env, ring, World(start, map[], map[]), steps)
    requires n in w.runs && w.runs[n] == r && r.phase.Reading? && r.generation == Generation(w, KeyOfRun(r))
    requires o == RunUpload(env, ring, w.db, r, plain)
    requires NoChunkCollision(env.hasher, ArchiveOf(env, ring, o.db, KeyOfRun(r)), r.phase.read, plain)
    ensures o.reply.Ok? ==> r.phase.read + plain <= ArchiveOf(env, ring, o.db, KeyOfRun(r))
  {
    hide Inv, ArchiveOf, Execute, RunUpload, NoChunkCollision, AllCollisionFree;
    StartIsSafe(env, ring, start);
    ExecutionIsSafe(env, ring, World(start, map[], map[]), steps);
    assert RunOk(env, ring, w, r);
    AcknowledgedAgrees(env, ring, w.db, r, plain);
  }

  // The client of `Syncer` takes exactly these steps.

  /** What the upload of one chunk amounts to, as the network settles it. */
  function StepFor(link: Link, n: nat, session: string, read: Bytes, plain: Bytes): Step {
    match link.network(NextRequest(link, session, read, plain))
    case NotSent => AbortRun(n)
    case ReplyLost => UploadChunk(n, plain, false)
    case Heard => UploadChunk(n, plain, true)
  }

  function Uploads(link: Link, n: nat, session: string, read: Bytes, chunks: seq<Bytes>): seq<Step>
    decreases |chunks|
  {
    if chunks == [] then []
    else [StepFor(link, n, session, read, chunks[0])] + Uploads(link, n, session, read + chunks[0], chunks[1..])
  }

  /** The steps of a run over a file. */
  function FileSteps(link: Link, n: nat, session: string, contents: Bytes, checkpoint: Checkpoint): seq<Step> {
    var start := checkpoint.nextOffset;
    if |contents| < start then [AbortRun(n)]
    else
      [OpenFile(n, contents[..start])] + Uploads(link, n, session, contents[..start], CutText(contents[start..]).chunks)
  }

  lemma {:induction false} AbsentRunIdles(link: Link, w: World, n: nat, session: string, read: Bytes,
                                          chunks: seq<Bytes>)
    requires n !in w.runs
    ensures Execute(link.env, link.ring, w, Uploads(link, n, session, read, chunks)) == w
    decreases |chunks|
  {
    hide NextRequest;
    if chunks != [] {
      var steps := Uploads(link, n, session, read, chunks);
      assert steps[1..] == Uploads(link, n, session, read + chunks[0], chunks[1..]);
      assert w.runs - {n} == w.runs;
      AbsentRunIdles(link, w, n, session, read + chunks[0], chunks[1..]);
    }
  }

  /** One upload of the client is one step of its run: same tables, and the run goes on exactly when the client does. */
  lemma DeliverIsStep(link: Link, w: World, n: nat, plain: Bytes)
    requires n in w.runs && w.runs[n].phase.Reading? && w.runs[n].client == link.client
    ensures var r := w.runs[n];
      var o := Deliver(link, w.db, r.session, r.phase.read, plain);
      var after := Next(link.env, link.ring, w, StepFor(link, n, r.session, r.phase.read, plain));
      && after.db == o.db
      && (o.error.None? ==> n in after.runs && after.runs[n] == r.(phase := Reading(r.phase.read + plain)))
      && (o.error.Some? ==> n !in after.runs)
  {
    hide Upload, ReplyError;
    assert NextRequest(link, w.runs[n].session, w.runs[n].phase.read, plain) == RunRequest(link.env, w.runs[n], plain);
  }

  lemma {:induction false} UploadsAreSends(link: Link, w: World, n: nat, session: string, read: Bytes,
                                           chunks: seq<Bytes>)
    requires n in w.runs && w.runs[n].client == link.client
    requires w.runs[n].session == session && w.runs[n].phase == Reading(read)
    ensures Execute(link.env, link.ring, w, Uploads(link, n, session, read, chunks)).db
         == SendChunks(link, w.db, session, read, chunks).db
    decreases |chunks|
  {
    hide Deliver, Next, StepFor;
    if chunks != [] {
      var steps := Uploads(link, n, session, read, chunks);
      assert steps[1..] == Uploads(link, n, session, read + chunks[0], chunks[1..]);
      DeliverIsStep(link, w, n, chunks[0]);
      var after := Next(link.env, link.ring, w, steps[0]);
      if n in after.runs {
        UploadsAreSends(link, after, n, session, read + chunks[0], chunks[1..]);
      } else {
        AbsentRunIdles(link, after, n, session, read + chunks[0], chunks[1..]);
      }
    }
  }

  /** Syncing a file against a checkpoint does to the server what the steps of its run do, whatever the network does. */
  lemma SyncFileIsExecution(link: Link, w: World, n: nat, contents: Bytes)
    requires n in w.runs && w.runs[n].phase.Opening? && w.runs[n].client == link.client
    ensures var r := w.runs[n];
      Execute(link.env, link.ring, w, FileSteps(link, n, r.session, contents, r.phase.checkpoint)).db
      == SyncFile(link, w.db, r.session, contents, r.phase.checkpoint).db
  {
    hide SendChunks, CutText, EqualFold, Sha, Uploads, Deliver, StepFor, Upload, Delete, Restarted, CheckpointOf,
         RunUpload;
    var session, checkpoint := w.runs[n].session, w.runs[n].phase.checkpoint;
    var start := checkpoint.nextOffset;
    if start <= |contents| {
      var opening, read, chunks := OpenFile(n, contents[..start]), contents[..start], CutText(contents[start..]).chunks;
      assert ([opening] + Uploads(link, n, session, read, chunks))[1..] == Uploads(link, n, session, read, chunks);
      var after := Next(link.env, link.ring, w, opening);
      if n in after.runs {
        UploadsAreSends(link, after, n, session, read, chunks);
      } else {
        AbsentRunIdles(link, after, n, session, read, chunks);
      }
    }
  }
}
