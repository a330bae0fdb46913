/** What a run counts, also when it fails, in terms of what became of each chunk and each file. */
module Accounting {
  import opened Basics
  import opened Chunker
  import opened Hashing
  import opened Lines
  import opened Server
  import opened Store
  import opened Syncer
  import opened Tables

  // One upload.

  /** The request for `chunk`, which follows `read` in its file. */
  ghost function RequestOf(link: Link, session: string, read: Bytes, chunk: Bytes): ChunkRequest {
    ChunkRequest(link.client.device, "codex", session, |read|, |read| + |chunk|, |chunk|, Sha(link.env.hasher, chunk),
                 Sha(link.env.hasher, read + chunk), link.client.keyId,
                 link.env.cipher.encrypt(link.client.recipient, chunk))
  }

  /** The tables after the request, if it reaches the server. */
  ghost function TablesAfter(link: Link, db: Db, q: ChunkRequest): Db {
    if link.network(q).NotSent? then db else Upload(link.env, link.ring, db, q).db
  }

  /** The client hears that everything up to the end of the chunk is stored. */
  ghost predicate Acknowledged(link: Link, db: Db, q: ChunkRequest) {
    var reply := Upload(link.env, link.ring, db, q).reply;
    link.network(q).Heard? && reply.Ok? && reply.value.nextOffset == q.end
  }

  /** What the client reports of a request that is not acknowledged. */
  ghost predicate Failed(link: Link, db: Db, q: ChunkRequest, e: SyncError) {
    var reply := Upload(link.env, link.ring, db, q).reply;
    && !Acknowledged(link, db, q)
    && (!link.network(q).Heard? ==> e == NoReply)
    && (link.network(q).Heard? ==> e == if reply.Err? then UploadFailed(reply.error) else UnexpectedOffset)
  }

  lemma DeliverMeans(link: Link, db: Db, session: string, read: Bytes, chunk: Bytes)
    ensures var o, q := Deliver(link, db, session, read, chunk), RequestOf(link, session, read, chunk);
      && o.db == TablesAfter(link, db, q)
      && (o.error.None? <==> Acknowledged(link, db, q))
      && (o.error.Some? ==> Failed(link, db, q, o.error.value))
  {
    hide Upload, Sha;
  }

  // One file.

  /** The request for chunk `i`, when the ones before it have been uploaded. */
  ghost function RequestNo(link: Link, session: string, read: Bytes, chunks: seq<Bytes>, i: nat): ChunkRequest
    requires i < |chunks|
  {
    RequestOf(link, session, read + Flat(chunks[..i]), chunks[i])
  }

  /**
   * `dbs` are the tables before and after each of the first uploads of `chunks`; the first `k` of them are
   * acknowledged.
   */
  ghost predicate Uploads(link: Link, session: string, read: Bytes, chunks: seq<Bytes>, dbs: seq<Db>, k: nat) {
    && k <= |chunks| && |dbs| == (if k == |chunks| then k + 1 else k + 2)
    && (forall i: nat :: i < |dbs| - 1 ==>
          dbs[i + 1] == TablesAfter(link, dbs[i], RequestNo(link, session, read, chunks, i)))
    && (forall i: nat :: i < k ==> Acknowledged(link, dbs[i], RequestNo(link, session, read, chunks, i)))
  }

  /**
   * Of one file, the `k` chunks up to the first that is not acknowledged are counted, with their bytes; that one is
   * not, and what became of it is reported.
   */
  lemma {:induction false} ChunksCount(link: Link, db: Db, session: string, read: Bytes, chunks: seq<Bytes>)
    returns (k: nat, dbs: seq<Db>)
    ensures var s := SendChunks(link, db, session, read, chunks);
      && Uploads(link, session, read, chunks, dbs, k) && dbs[0] == db && dbs[|dbs| - 1] == s.db
      && s.chunks == k && s.bytes == |Flat(chunks[..k])|
      && (k == |chunks| ==> s.error.None?)
      && (k < |chunks| ==>
            s.error.Some? && Failed(link, dbs[k], RequestNo(link, session, read, chunks, k), s.error.value))
    decreases |chunks|
  {
    hide Deliver, TablesAfter, Acknowledged, Failed, RequestOf;
    k, dbs := 0, [db];
    if chunks != [] {
      assert chunks[..0] == [];
      ConcatUnit(read);
      DeliverMeans(link, db, session, read, chunks[0]);
      var o := Deliver(link, db, session, read, chunks[0]);
      dbs := [db, o.db];
      if o.error.None? {
        var rest;
        k, rest := ChunksCount(link, o.db, session, read + chunks[0], chunks[1..]);
        dbs := [db] + rest;
        RequestsCons(link, session, read, chunks);
        UploadsCons(link, db, session, read, chunks, rest, k);
        FirstOf(read, chunks, k, k + 1);
        k := k + 1;
      }
    }
  }

  lemma RequestsCons(link: Link, session: string, read: Bytes, chunks: seq<Bytes>)
    requires chunks != []
    ensures RequestNo(link, session, read, chunks, 0) == RequestOf(link, session, read, chunks[0])
    ensures forall i: nat :: i < |chunks| - 1 ==>
      RequestNo(link, session, read, chunks, i + 1) == RequestNo(link, session, read + chunks[0], chunks[1..], i)
  {
    hide RequestOf;
    assert chunks[..0] == [];
    ConcatUnit(read);
    forall i: nat | i < |chunks| - 1
      ensures read + chunks[0] + Flat(chunks[1..][..i]) == read + Flat(chunks[..i + 1])
    {
      FirstOf(read, chunks, i, i + 1);
    }
  }

  lemma UploadsCons(link: Link, db: Db, session: string, read: Bytes, chunks: seq<Bytes>, rest: seq<Db>, k: nat)
    requires chunks != [] && Uploads(link, session, read + chunks[0], chunks[1..], rest, k)
    requires var q := RequestOf(link, session, read, chunks[0]);
      rest[0] == TablesAfter(link, db, q) && Acknowledged(link, db, q)
    ensures Uploads(link, session, read, chunks, [db] + rest, k + 1)
  {
    RequestsCons(link, session, read, chunks);
    hide TablesAfter, Acknowledged, RequestNo, RequestOf;
    var dbs := [db] + rest;
    forall i: nat | i < |dbs| - 1
      ensures dbs[i + 1] == TablesAfter(link, dbs[i], RequestNo(link, session, read, chunks, i))
      ensures i < k + 1 ==> Acknowledged(link, dbs[i], RequestNo(link, session, read, chunks, i))
    {
      if i > 0 {
        var n: nat := i - 1;
        assert RequestNo(link, session, read, chunks, n + 1)
            == RequestNo(link, session, read + chunks[0], chunks[1..], n);
        assert dbs[i] == rest[n];
      }
    }
  }

  lemma FirstOf(read: Bytes, chunks: seq<Bytes>, i: nat, next: nat)
    requires chunks != [] && next == i + 1 <= |chunks|
    ensures read + chunks[0] + Flat(chunks[1..][..i]) == read + Flat(chunks[..next])
    ensures |Flat(chunks[..next])| == |chunks[0]| + |Flat(chunks[1..][..i])|
  {
    assert chunks[..next][1..] == chunks[1..][..i];
    ConcatAssociative(read, chunks[0], Flat(chunks[1..][..i]));
  }

  lemma {:induction false} SendsFailOnTheWay(link: Link, db: Db, session: string, read: Bytes, chunks: seq<Bytes>)
    ensures var e := SendChunks(link, db, session, read, chunks).error;
      e.Some? ==> e.value.UploadFailed? || e.value.UnexpectedOffset? || e.value.NoReply?
    decreases |chunks|
  {
    hide SendOne, NextRequest;
    if chunks != [] {
      var after := Deliver(link, db, session, read, chunks[0]).db;
      SendsFailOnTheWay(link, after, session, read + chunks[0], chunks[1..]);
    }
  }

  /**
   * Why a file is refused before anything is uploaded, each error exactly for its reason; and a record is too long
   * only behind chunks that have all been uploaded.
   */
  lemma FileErrors(link: Link, db: Db, session: string, contents: Bytes, c: Checkpoint)
    ensures var s, start := SyncFile(link, db, session, contents, c), c.nextOffset;
      && (s.error == Some(SourceTooShort) <==> |contents| < start)
      && (s.error == Some(PrefixRewritten) <==>
            |contents| >= start && !EqualFold(Sha(link.env.hasher, contents[..start]), c.prefixSha))
      && (s.error == Some(OffBoundary) <==>
            && |contents| >= start > 0 && EqualFold(Sha(link.env.hasher, contents[..start]), c.prefixSha)
            && contents[start - 1] != NEWLINE)
      && (s.error in {Some(SourceTooShort), Some(PrefixRewritten), Some(OffBoundary)} ==> s == Sent(db, 0, 0, s.error))
      && (s.error == Some(RecordTooLong) ==>
            && |contents| >= start && !CutText(contents[start..]).complete
            && s.chunks == |CutText(contents[start..]).chunks|)
  {
    hide EqualFold, Sha, CutText, SendChunks;
    if |contents| >= c.nextOffset {
      var read, cut := contents[..c.nextOffset], CutText(contents[c.nextOffset..]);
      SendsFailOnTheWay(link, db, session, read, cut.chunks);
      var k, dbs := ChunksCount(link, db, session, read, cut.chunks);
    }
  }

  // A whole run.

  function Sum(s: seq<nat>): nat {
    if s == [] then 0 else s[0] + Sum(s[1..])
  }

  /** What each of the first sources contributes to the three counters. */
  function ChunksOfEach(parts: seq<Sent>): seq<nat> {
    seq(|parts|, i requires 0 <= i < |parts| => parts[i].chunks)
  }

  function BytesOfEach(parts: seq<Sent>): seq<nat> {
    seq(|parts|, i requires 0 <= i < |parts| => parts[i].bytes)
  }

  function SessionsOfEach(parts: seq<Sent>): seq<nat> {
    seq(|parts|, i requires 0 <= i < |parts| => if parts[i].error.None? && parts[i].chunks > 0 then 1 else 0)
  }

  /** Source `source` was in the plan, and `s` is what became of it in the tables `db`. */
  predicate Became(link: Link, plan: map<string, Checkpoint>, db: Db, source: Source, s: Sent) {
    source.sessionId in plan && s == SyncFile(link, db, source.sessionId, source.contents, plan[source.sessionId])
  }

  function TablesBefore(db: Db, parts: seq<Sent>, i: nat): Db
    requires i <= |parts|
  {
    if i == 0 then db else parts[i - 1].db
  }

  /** `parts` is what became of the first sources, each synced in the tables the one before it left. */
  ghost predicate Parts(link: Link, plan: map<string, Checkpoint>, db: Db, sources: seq<Source>, parts: seq<Sent>) {
    && |parts| <= |sources|
    && forall i :: 0 <= i < |parts| ==> Became(link, plan, TablesBefore(db, parts, i), sources[i], parts[i])
  }

  /** What ends a run after these parts: the error of the last one, a source without a checkpoint, or nothing. */
  function EndOf(plan: map<string, Checkpoint>, sources: seq<Source>, parts: seq<Sent>): Option<SyncError>
    requires |parts| <= |sources|
  {
    if parts != [] && parts[|parts| - 1].error.Some? then parts[|parts| - 1].error
    else if |parts| < |sources| then Some(CheckpointOmitted(sources[|parts|].sessionId))
    else None
  }

  /** What a run with these parts reports. */
  ghost predicate Reports(r: Ran, plan: map<string, Checkpoint>, db: Db, sources: seq<Source>, parts: seq<Sent>)
    requires |parts| <= |sources|
  {
    && (forall i :: 0 <= i < |parts| - 1 ==> parts[i].error.None?)
    && ((parts == [] || parts[|parts| - 1].error.None?) && |parts| < |sources| ==>
          sources[|parts|].sessionId !in plan)
    && r.error == EndOf(plan, sources, parts)
    && r.db == TablesBefore(db, parts, |parts|)
    && r.sessions == Sum(SessionsOfEach(parts))
    && r.chunks == Sum(ChunksOfEach(parts)) && r.bytes == Sum(BytesOfEach(parts))
  }

  /**
   * A run counts the chunks and bytes of every source it got to, the failing one included, and as sessions those
   * synced without failure and with at least one chunk; it goes on exactly until a source fails or is not in the
   * plan.
   */
  lemma {:induction false} RunCounts(link: Link, plan: map<string, Checkpoint>, db: Db, sources: seq<Source>)
    returns (parts: seq<Sent>)
    ensures Parts(link, plan, db, sources, parts)
    ensures Reports(SyncSources(link, plan, db, sources), plan, db, sources, parts)
    decreases |sources|
  {
    hide SyncFile, Reports;
    parts := [];
    if sources != [] && sources[0].sessionId in plan {
      var s := SyncFile(link, db, sources[0].sessionId, sources[0].contents, plan[sources[0].sessionId]);
      if s.error.None? {
        var rest := RunCounts(link, plan, s.db, sources[1..]);
        parts := [s] + rest;
        PartsCons(link, plan, db, sources, s, rest);
        ReportsCons(SyncSources(link, plan, s.db, sources[1..]), plan, db, sources, s, rest);
      } else {
        parts := [s];
        StopsAt(plan, db, sources, s);
      }
    } else {
      StopsBefore(plan, db, sources);
    }
  }

  lemma StopsBefore(plan: map<string, Checkpoint>, db: Db, sources: seq<Source>)
    requires sources == [] || sources[0].sessionId !in plan
    ensures Reports(Ran(db, 0, 0, 0, EndOf(plan, sources, [])), plan, db, sources, [])
  {
  }

  lemma StopsAt(plan: map<string, Checkpoint>, db: Db, sources: seq<Source>, s: Sent)
    requires sources != [] && s.error.Some?
    ensures Reports(Ran(s.db, 0, s.chunks, s.bytes, s.error), plan, db, sources, [s])
  {
    SumsCons(s, []);
    ConcatUnit([s]);
  }

  lemma ReportsCons(r: Ran, plan: map<string, Checkpoint>, db: Db, sources: seq<Source>, s: Sent, rest: seq<Sent>)
    requires sources != [] && s.error.None? && |rest| < |sources|
    requires Reports(r, plan, s.db, sources[1..], rest)
    ensures Reports(Counted(s, r), plan, db, sources, [s] + rest)
  {
    SumsCons(s, rest);
    hide Sum, ChunksOfEach, BytesOfEach, SessionsOfEach;
    var parts := [s] + rest;
    assert parts[|parts| - 1] == if rest == [] then s else rest[|rest| - 1];
    assert forall i :: 0 < i < |parts| ==> parts[i] == rest[i - 1];
  }

  lemma PartsCons(link: Link, plan: map<string, Checkpoint>, db: Db, sources: seq<Source>, s: Sent, rest: seq<Sent>)
    requires sources != [] && Became(link, plan, db, sources[0], s) && Parts(link, plan, s.db, sources[1..], rest)
    ensures Parts(link, plan, db, sources, [s] + rest)
  {
    hide Became;
    var parts := [s] + rest;
    forall i | 0 < i < |parts|
      ensures Became(link, plan, TablesBefore(db, parts, i), sources[i], parts[i])
    {
      assert sources[1..][i - 1] == sources[i] && parts[i] == rest[i - 1];
      assert TablesBefore(db, parts, i) == TablesBefore(s.db, rest, i - 1);
    }
  }

  lemma SumsCons(s: Sent, rest: seq<Sent>)
    ensures Sum(ChunksOfEach([s] + rest)) == s.chunks + Sum(ChunksOfEach(rest))
    ensures Sum(BytesOfEach([s] + rest)) == s.bytes + Sum(BytesOfEach(rest))
    ensures Sum(SessionsOfEach([s] + rest))
         == (if s.error.None? && s.chunks > 0 then 1 else 0) + Sum(SessionsOfEach(rest))
  {
    assert ChunksOfEach([s] + rest)[1..] == ChunksOfEach(rest);
    assert BytesOfEach([s] + rest)[1..] == BytesOfEach(rest);
    assert SessionsOfEach([s] + rest)[1..] == SessionsOfEach(rest);
  }
}
