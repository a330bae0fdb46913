/** Why agreement needs the session not to be deleted: a stale run acknowledged over somebody else's history. */
module StalePlan {
  import opened Basics
  import opened Chunker
  import opened Convergence
  import opened Deletion
  import opened Demo
  import opened Hashing
  import opened Invariant
  import opened Protocol
  import opened Queries
  import opened Records
  import opened Server
  import opened Store
  import opened Syncer
  import opened Tables

  const EMPTY_WORLD := World(EMPTY_DB, map[], map[])

  /** Two equally long openings of a session and a chunk that continues either. */
  ghost predicate Interchangeable(link: Link, session: string, a: Bytes, b: Bytes, c: Bytes) {
    && link.env.safeId(session)
    && GoodChunk(a) && GoodChunk(b) && GoodChunk(c) && |a| == |b|
    && ParseChunkResult(link.env.decoder, a, 0, session).Ok?
    && ParseChunkResult(link.env.decoder, b, 0, session).Ok?
    && ParseChunkResult(link.env.decoder, c, |a|, session).Ok?
  }

  function SecondRequest(link: Link, session: string, read: Bytes, plain: Bytes): ChunkRequest {
    RequestFor(link.env, link.client, session, |read|, plain, Sha(link.env.hasher, read + plain))
  }

  /** `a` is archived and a run plans and opens its file; the session is deleted and re-uploaded as `b + c`. */
  function Story(link: Link, session: string, a: Bytes, b: Bytes, c: Bytes): seq<Step> {
    [AnyRequest(FirstRequest(link, session, a)), PlanRun(0, link.client, session), OpenFile(0, a),
     DeleteKey(KeyIn(link, session)),
     AnyRequest(FirstRequest(link, session, b)), AnyRequest(SecondRequest(link, session, b, c))]
  }

  /** The session as `b + c`, whose second chunk is taken for the one a run that read `a` sends. */
  lemma TakenForDuplicate(link: Link, db: Db, session: string, a: Bytes, b: Bytes, c: Bytes)
    requires Working(link) && Inv(link.env, link.ring, db) && Interchangeable(link, session, a, b, c)
    requires Ready(db, KeyIn(link, session)) && ArchiveOf(link.env, link.ring, db, KeyIn(link, session)) == b
    ensures var k := KeyIn(link, session);
      var after := Upload(link.env, link.ring, db, SecondRequest(link, session, b, c)).db;
      && ArchiveOf(link.env, link.ring, after, k) == b + c
      && Upload(link.env, link.ring, after, SecondRequest(link, session, a, c))
         == UploadOutcome(after, Ok(UploadReply(|a + c|, true)))
  {
    hide Inv, Working, KeyOk, ParseChunkResult, GoodChunk, Sha, ToLower, Check, Put;
    var env, k, q := link.env, KeyIn(link, session), SecondRequest(link, session, b, c);
    IsWorking(link);
    SendOneAppends(link, db, session, c);
    var after := Upload(env, link.ring, db, q).db;
    var i := AcknowledgedIsStored(env, link.ring, db, q);
    var stale := SecondRequest(link, session, a, c);
    GoodPassesGuards(link, session, |b|, c, b + c);
    GoodPassesGuards(link, session, |a|, c, a + c);
    CheckedIsUploaded(env, link.ring, stale);
    var checked := Check(env, link.ring, stale).value;
    assert DuplicateOf(after, checked.row, i);
    PutKeepsInvariant(env, link.ring, after, checked.row, c, ToLower(stale.prefixSha), checked.parsed);
  }

  /** The six steps one by one. */
  lemma StorySteps(link: Link, session: string, a: Bytes, b: Bytes, c: Bytes) returns (w1: World, w2: World, w3: World,
                   w4: World, w5: World, w6: World)
    ensures var env, ring, story := link.env, link.ring, Story(link, session, a, b, c);
      && w1 == Next(env, ring, EMPTY_WORLD, story[0]) && w2 == Next(env, ring, w1, story[1])
      && w3 == Next(env, ring, w2, story[2]) && w4 == Next(env, ring, w3, story[3])
      && w5 == Next(env, ring, w4, story[4]) && w6 == Next(env, ring, w5, story[5])
      && w6 == Execute(env, ring, EMPTY_WORLD, story)
  {
    hide Next;
    var env, ring, story := link.env, link.ring, Story(link, session, a, b, c);
    w1 := Next(env, ring, EMPTY_WORLD, story[0]);
    w2 := Next(env, ring, w1, story[1]);
    w3 := Next(env, ring, w2, story[2]);
    w4 := Next(env, ring, w3, story[3]);
    w5 := Next(env, ring, w4, story[4]);
    w6 := Next(env, ring, w5, story[5]);
    assert story[1..][1..] == story[2..] && story[2..][1..] == story[3..] && story[3..][1..] == story[4..];
    assert story[4..][1..] == story[5..] && story[5..][1..] == [];
    calc {
      Execute(env, ring, EMPTY_WORLD, story);
      Execute(env, ring, w1, story[1..]);
      Execute(env, ring, w2, story[2..]);
      Execute(env, ring, w3, story[3..]);
      Execute(env, ring, w4, story[4..]);
      Execute(env, ring, w5, story[5..]);
      w6;
    }
  }

  /** The run of the story has read `a` when the session is deleted. */
  lemma StaleRunReads(link: Link, session: string, a: Bytes, db: Db)
    requires Working(link) && Inv(link.env, link.ring, db) && GoodChunk(a)
    requires Ready(db, KeyIn(link, session)) && ArchiveOf(link.env, link.ring, db, KeyIn(link, session)) == a
    ensures var planned := Next(link.env, link.ring, World(db, map[], map[]), PlanRun(0, link.client, session));
      Next(link.env, link.ring, planned, OpenFile(0, a))
      == World(db, map[], map[0 := RunState(link.client, session, 0, Reading(a))])
  {
    hide Inv, Working, KeyOk, Ready, Sha, EqualFold, CheckpointOf;
    var k := KeyIn(link, session);
    InvOfKey(link.env, link.ring, db, k);
    CheckpointIsPrefix(link.env, link.ring, db, k);
    FoldReflexive(Sha(link.env.hasher, a));
    GoodFits(a);
  }

  /**
   * The story ends with consistent tables, a run that has read `a`, its chunk `c` acknowledged, and `b + c`
   * archived.
   */
  ghost predicate Disagrees(link: Link, session: string, a: Bytes, b: Bytes, c: Bytes) {
    var k, w := KeyIn(link, session), Execute(link.env, link.ring, EMPTY_WORLD, Story(link, session, a, b, c));
    && Inv(link.env, link.ring, w.db)
    && ArchiveOf(link.env, link.ring, w.db, k) == b + c
    && 0 in w.runs && w.runs[0] == RunState(link.client, session, 0, Reading(a))
    && RunUpload(link.env, link.ring, w.db, w.runs[0], c) == UploadOutcome(w.db, Ok(UploadReply(|a + c|, true)))
    && !(a + c <= ArchiveOf(link.env, link.ring, w.db, k))
  }

  /**
   * With a delete in between, agreement fails: a chunk is acknowledged that does not continue what the run
   * has read.
   */
  lemma StaleRunDisagrees(link: Link, session: string, a: Bytes, b: Bytes, c: Bytes)
    requires Working(link) && Interchangeable(link, session, a, b, c) && a != b
    ensures Disagrees(link, session, a, b, c)
  {
    hide Inv, Working, KeyOk, ParseChunkResult, GoodChunk, Sha, ArchiveOf, Upload, Delete, Ready, OpensAt,
         CheckpointOf, Execute;
    var env, ring, k := link.env, link.ring, KeyIn(link, session);
    var w1, w2, w3, w4, w5, w6 := StorySteps(link, session, a, b, c);
    IsWorking(link);
    EmptyDbInv(env, ring);
    FirstUpload(link, EMPTY_DB, session, a);
    StaleRunReads(link, session, a, w1.db);
    DeleteKeepsInvariant(env, ring, w3.db, k);
    FirstUpload(link, w4.db, session, b);
    TakenForDuplicate(link, w5.db, session, a, b, c);
    ExecutionKeepsInvariant(env, ring, EMPTY_WORLD, Story(link, session, a, b, c));
    NotAPrefix(a, b, c);
  }

  lemma NotAPrefix(a: Bytes, b: Bytes, c: Bytes)
    requires |a| == |b| && a != b
    ensures !(a + c <= b + c)
  {
    var i :| 0 <= i < |a| && a[i] != b[i];
    assert (a + c)[i] != (b + c)[i];
  }

  // A concrete instance.

  const DEMO_LINK := DemoLink(Decoder((line: Bytes) => Some(DEMO_META), (id: string) => true))

  const FIRST: Bytes := [97, 10]
  const REWRITTEN: Bytes := [98, 10]
  const NEXT: Bytes := [99, 10]

  /** Any two-byte line parses at any offset. */
  lemma DemoParses(line: Bytes, base: nat)
    requires |line| == 2 && line[0] != NEWLINE && line[1] == NEWLINE
    ensures GoodChunk(line) && ParseChunkResult(DEMO_LINK.env.decoder, line, base, "s").Ok?
  {
    TwoByteLine(line);
    var d := DEMO_LINK.env.decoder;
    assert ParseRecord(d, line, base, "s").Ok?;
    assert [line][1..] == [];
    assert ParseLines(d, [], base + 2, "s") == Ok(NOTHING);
  }

  lemma StaleRunExample()
    ensures Disagrees(DEMO_LINK, "s", FIRST, REWRITTEN, NEXT)
  {
    hide Working, Execute, ParseChunkResult, GoodChunk, Disagrees;
    DemoWorks(DEMO_LINK.env.decoder);
    DemoParses(FIRST, 0);
    DemoParses(REWRITTEN, 0);
    DemoParses(NEXT, 2);
    StaleRunDisagrees(DEMO_LINK, "s", FIRST, REWRITTEN, NEXT);
  }

  /** The digests of the example differ wherever its texts do, so no collision is to blame. */
  lemma NoCollisionToBlame()
    ensures Sha(DEMO_HASHER, FIRST) != Sha(DEMO_HASHER, REWRITTEN)
    ensures Sha(DEMO_HASHER, FIRST + NEXT) != Sha(DEMO_HASHER, REWRITTEN + NEXT)
  {
    DemoState(FIRST, []);
    DemoState(REWRITTEN, []);
    DemoState(FIRST + NEXT, []);
    DemoState(REWRITTEN + NEXT, []);
    assert Sha(DEMO_HASHER, FIRST)[0] == 'a' && Sha(DEMO_HASHER, FIRST + NEXT)[0] == 'a';
    assert Sha(DEMO_HASHER, REWRITTEN)[0] == 'b' && Sha(DEMO_HASHER, REWRITTEN + NEXT)[0] == 'b';
  }
}
