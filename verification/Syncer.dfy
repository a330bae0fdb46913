/** The client: cutting a file past its checkpoint into chunks, uploading them, and accounting for them. */
module Syncer {
  import opened Basics
  import opened Chunker
  import opened Hashing
  import opened Lines
  import opened Plan
  import opened Server
  import opened Store
  import opened Tables
  import opened Vault

  datatype Client = Client(device: string, keyId: string, recipient: Recipient)

  /**
   * A discovered session file: its size when it was listed, and its bytes as the run reads them, from the start
   * on; they need not all have been there at the same time.
   */
  datatype Source = Source(sessionId: string, size: int, contents: Bytes)

  /** How one upload fares: nothing reaches the server (or encrypting fails), or the reply gets lost, or all is well. */
  datatype Delivery = NotSent | ReplyLost | Heard

  /** What stays fixed during a run. A run never sends the same request twice, so it settles how each one fares. */
  datatype Link = Link(env: Env, ring: Keyring, client: Client, network: ChunkRequest -> Delivery)

  datatype SyncError =
    | PlanRefused(why: PlanError)
    | CheckpointOmitted(sessionId: string)
    | SourceTooShort
    | PrefixRewritten
    | OffBoundary
    | RecordTooLong
    | UploadFailed(cause: UploadError)
    | UnexpectedOffset
    | NoReply

  /** The upload the client makes of one chunk. */
  function RequestFor(env: Env, client: Client, session: string, start: nat, plain: Bytes,
                      prefixSha: string): ChunkRequest {
    ChunkRequest(client.device, AGENT, session, start, start + |plain|, |plain|, Sha(env.hasher, plain), prefixSha,
                 client.keyId, env.cipher.encrypt(client.recipient, plain))
  }

  /** The tables after some uploads, how many were acknowledged and with how many bytes, and what stopped them. */
  datatype Sent = Sent(db: Db, chunks: nat, bytes: nat, error: Option<SyncError>)

  function Plus(chunks: nat, bytes: nat, s: Sent): Sent {
    s.(chunks := chunks + s.chunks, bytes := bytes + s.bytes)
  }

  function ReplyError(reply: Result<UploadReply, UploadError>, end: nat): Option<SyncError> {
    match reply
    case Err(e) => Some(UploadFailed(e))
    case Ok(r) => if r.nextOffset != end then Some(UnexpectedOffset) else None
  }

  /** The request that uploads `plain` as the continuation of `read`. */
  function NextRequest(link: Link, session: string, read: Bytes, plain: Bytes): ChunkRequest {
    RequestFor(link.env, link.client, session, |read|, plain, Sha(link.env.hasher, read + plain))
  }

  /** What the server makes of it. */
  function SendOne(link: Link, db: Db, session: string, read: Bytes, plain: Bytes): UploadOutcome {
    Upload(link.env, link.ring, db, NextRequest(link, session, read, plain))
  }

  /** The tables after an upload, and what the client takes for its failure. */
  datatype Delivered = Delivered(db: Db, error: Option<SyncError>)

  /** The upload of `plain` as the continuation of `read`, over the network. */
  function Deliver(link: Link, db: Db, session: string, read: Bytes, plain: Bytes): Delivered {
    var o := SendOne(link, db, session, read, plain);
    match link.network(NextRequest(link, session, read, plain))
    case NotSent => Delivered(db, Some(NoReply))
    case ReplyLost => Delivered(o.db, Some(NoReply))
    case Heard => Delivered(o.db, ReplyError(o.reply, |read + plain|))
  }

  /** Uploading `chunks` one after the other as the continuation of `read`, up to the first failure. */
  function SendChunks(link: Link, db: Db, session: string, read: Bytes, chunks: seq<Bytes>): Sent
    decreases |chunks|
  {
    if chunks == [] then Sent(db, 0, 0, None)
    else
      var o := Deliver(link, db, session, read, chunks[0]);
      if o.error.Some? then Sent(o.db, 0, 0, o.error)
      else Plus(1, |chunks[0]|, SendChunks(link, o.db, session, read + chunks[0], chunks[1..]))
  }

  /** The same for what the chunker emits, which may end in a line above the limit. */
  function SendCut(link: Link, db: Db, session: string, read: Bytes, cut: CutResult): Sent {
    var s := SendChunks(link, db, session, read, cut.chunks);
    if s.error.None? && !cut.complete then s.(error := Some(RecordTooLong)) else s
  }

  /** A file against the checkpoint the server reported for it. */
  function SyncFile(link: Link, db: Db, session: string, contents: Bytes, checkpoint: Checkpoint): Sent {
    var start := checkpoint.nextOffset;
    if |contents| < start then Sent(db, 0, 0, Some(SourceTooShort))
    else if !EqualFold(Sha(link.env.hasher, contents[..start]), checkpoint.prefixSha) then
      Sent(db, 0, 0, Some(PrefixRewritten))
    else if start > 0 && contents[start - 1] != NEWLINE then Sent(db, 0, 0, Some(OffBoundary))
    else SendCut(link, db, session, contents[..start], CutText(contents[start..]))
  }

  /** The callback of a run with the result it updates. */
  class Uploader {
    const server: Server
    const client: Client
    const network: ChunkRequest -> Delivery
    var chunks: nat
    var bytes: nat

    constructor (server: Server, client: Client, network: ChunkRequest -> Delivery)
      ensures this.server == server && this.client == client && this.network == network && chunks == bytes == 0
    {
      this.server := server;
      this.client := client;
      this.network := network;
      chunks, bytes := 0, 0;
    }

    ghost function Settings(): Link {
      Link(server.store.env, server.ring, client, network)
    }

    /** Encrypts and uploads one chunk, and counts it once the server has acknowledged the expected offset. */
    method Consume(ghost read: Bytes, session: string, start: nat, end: nat, plain: Bytes, prefixSha: string)
      returns (error: Option<SyncError>)
      requires start == |read| && end == start + |plain| && prefixSha == Sha(server.store.env.hasher, read + plain)
      modifies this, server.store
      ensures Delivered(server.store.Snapshot(), error)
           == Deliver(Settings(), old(server.store.Snapshot()), session, read, plain)
      ensures chunks == old(chunks) + (if error.None? then 1 else 0)
      ensures bytes == old(bytes) + (if error.None? then |plain| else 0)
    {
      hide Upload, Sha;
      var ciphertext := server.store.env.cipher.encrypt(client.recipient, plain);
      var request := ChunkRequest(
        client.device, AGENT, session, start, end, |plain|, Sha(server.store.env.hasher, plain), prefixSha,
        client.keyId, ciphertext);
      var fate := network(request);
      if fate.NotSent? {
        return Some(NoReply);
      }
      var reply := server.HandleChunk(request);
      if fate.ReplyLost? {
        return Some(NoReply);
      }
      if reply.Err? {
        return Some(UploadFailed(reply.error));
      }
      if reply.value.nextOffset != end {
        return Some(UnexpectedOffset);
      }
      chunks := chunks + 1;
      bytes := bytes + |plain|;
      return None;
    }
  }

  /** The lines collected for the next chunk, where they start, and the hash of everything before them. */
  class Pending {
    const uploader: Uploader
    const session: string
    var chunk: Bytes
    var chunkStart: nat
    var prefixState: HashState

    constructor (uploader: Uploader, session: string, chunkStart: nat, prefixState: HashState)
      ensures this.uploader == uploader && this.session == session && chunk == []
      ensures this.chunkStart == chunkStart && this.prefixState == prefixState
    {
      this.uploader := uploader;
      this.session := session;
      this.chunkStart := chunkStart;
      this.prefixState := prefixState;
      chunk := [];
    }

    /**
     * `flush`: emits what was collected, the bytes of the file up to `pos`, with the cumulative digest;
     * does nothing when nothing was collected.
     */
    method Flush(ghost contents: Bytes, ghost pos: nat) returns (error: Option<SyncError>)
      requires chunkStart <= pos <= |contents| && chunk == contents[chunkStart..pos]
      requires prefixState == StateOf(uploader.server.store.env.hasher, contents[..chunkStart])
      modifies this, uploader, uploader.server.store
      ensures var before := old(uploader.server.store.Snapshot());
        Delivered(uploader.server.store.Snapshot(), error)
        == if old(chunk) == [] then Delivered(before, None)
           else Deliver(uploader.Settings(), before, session, contents[..old(chunkStart)], old(chunk))
      ensures error.None? ==>
        && chunk == [] && chunkStart == pos
        && prefixState == StateOf(uploader.server.store.env.hasher, contents[..pos])
      ensures uploader.chunks == old(uploader.chunks) + (if error.None? && old(chunk) != [] then 1 else 0)
      ensures uploader.bytes == old(uploader.bytes) + (if error.None? then |old(chunk)| else 0)
    {
      hide Upload;
      if chunk == [] {
        return None;
      }
      ghost var hasher := uploader.server.store.env.hasher;
      ExtendConcat(hasher, hasher.init, contents[..chunkStart], chunk);
      assert contents[..chunkStart] + chunk == contents[..pos];
      prefixState := Extend(uploader.server.store.env.hasher, prefixState, chunk);
      var cumulative := uploader.server.store.env.hasher.digest(prefixState);
      error := uploader.Consume(contents[..chunkStart], session, chunkStart, chunkStart + |chunk|, chunk, cumulative);
      if error.Some? {
        return;
      }
      chunkStart := chunkStart + |chunk|;
      chunk := [];
    }
  }

  // The loop of `ReadChunks`, one step at a time.

  /** Emitting a non-empty chunk is one more step of the whole upload. */
  lemma EmitStep(link: Link, db: Db, session: string, read: Bytes, chunk: Bytes, rest: CutResult)
    ensures var o := Deliver(link, db, session, read, chunk);
      SendCut(link, db, session, read, CutResult([chunk] + rest.chunks, rest.complete))
      == if o.error.Some? then Sent(o.db, 0, 0, o.error)
         else Plus(1, |chunk|, SendCut(link, o.db, session, read + chunk, rest))
  {
    hide Deliver;
    assert ([chunk] + rest.chunks)[1..] == rest.chunks;
  }

  lemma TailAfterLine(line: Bytes, rest: Bytes)
    requires LineAligned(line)
    ensures TailOf(line + rest) == TailOf(rest)
  {
    CompletePrefixOfConcat(line, rest);
    DropLeft(line + CompletePrefix(rest), TailOf(rest));
    ConcatAssociative(line, CompletePrefix(rest), TailOf(rest));
  }

  /** What a line read from `rest` says about the lines and the tail of `rest`. */
  lemma NextIsFirst(rest: Bytes)
    ensures var next := NextLine(rest);
      && (next.Line? ==>
            && LinesOf(rest) != [] && LinesOf(rest)[0] == next.line && |next.line| <= MAX_LINE
            && next.line <= rest && next.line != []
            && LinesOf(rest)[1..] == LinesOf(rest[|next.line|..]) && TailOf(rest) == TailOf(rest[|next.line|..]))
      && (next.Partial? ==> LinesOf(rest) == [] && |TailOf(rest)| <= MAX_LINE)
  {
    hide IndexByte, FirstLine, HasLine;
    if !HasLine(rest) {
      LineOfUnended(rest);
    } else {
      var line := FirstLine(rest);
      FirstLineIsLine(rest);
      LineIsTerminated(line);
      assert rest == line + rest[|line|..];
      TailAfterLine(line, rest[|line|..]);
    }
  }

  lemma LineOfUnended(rest: Bytes)
    requires !HasLine(rest)
    ensures FirstLine(rest) == rest == TailOf(rest)
  {
    CompletePrefixEmpty(rest);
  }

  lemma TooLongStops(acc: Bytes, rest: Bytes)
    requires NextLine(rest).TooLong?
    ensures Group(acc, LinesOf(rest), TailOf(rest)) == CutResult([], false)
  {
    hide IndexByte, FirstLine, HasLine;
    if !HasLine(rest) { LineOfUnended(rest); }
  }

  lemma PlusPlus(a: nat, b: nat, c: nat, d: nat, s: Sent)
    ensures Plus(a, b, Plus(c, d, s)) == Plus(a + c, b + d, s) && Plus(0, 0, s) == s
  {
  }

  lemma SliceOn(s: Bytes, i: nat, j: nat, k: nat)
    requires i <= j <= k <= |s|
    ensures s[i..j] + s[j..k] == s[i..k]
  {
  }

  /** What is still to be uploaded once `pos` bytes have been read and those from `chunkStart` on are collected. */
  ghost function ToSend(link: Link, db: Db, session: string, contents: Bytes, chunkStart: nat, pos: nat): Sent
    requires chunkStart <= pos <= |contents|
  {
    SendCut(link, db, session, contents[..chunkStart],
            Group(contents[chunkStart..pos], LinesOf(contents[pos..]), TailOf(contents[pos..])))
  }

  /**
   * The upload of the chunk between two offsets of a file, with the counters so far, and what follows an
   * acknowledgement.
   */
  ghost function Emit(link: Link, db: Db, session: string, contents: Bytes, from: nat, to: nat,
                      chunks: nat, bytes: nat, rest: Sent): Sent
    requires from <= to <= |contents|
  {
    var o := Deliver(link, db, session, contents[..from], contents[from..to]);
    if o.error.Some? then Sent(o.db, chunks, bytes, o.error) else Plus(chunks + 1, bytes + (to - from), rest)
  }

  ghost function AfterEmit(link: Link, db: Db, session: string, contents: Bytes, from: nat, to: nat): Db
    requires from <= to <= |contents|
  {
    Deliver(link, db, session, contents[..from], contents[from..to]).db
  }

  lemma EmitFirst(link: Link, db: Db, session: string, contents: Bytes, from: nat, to: nat, acc: Bytes, c: nat, b: nat)
    requires from < to <= |contents| && acc == contents[from..to]
    ensures var rest := Group([], LinesOf(contents[to..]), TailOf(contents[to..]));
      Plus(c, b, SendCut(link, db, session, contents[..from], CutResult([acc] + rest.chunks, rest.complete)))
      == Emit(link, db, session, contents, from, to, c, b,
              ToSend(link, AfterEmit(link, db, session, contents, from, to), session, contents, to, to))
  {
    hide Group, LinesOf, TailOf, Deliver, SendCut;
    var rest := Group([], LinesOf(contents[to..]), TailOf(contents[to..]));
    EmitStep(link, db, session, contents[..from], acc, rest);
    assert contents[..from] + acc == contents[..to];
    assert contents[to..to] == [];
  }

  /** A line that would overfill the collected chunk: the chunk goes out first. */
  lemma EmitEarly(link: Link, db: Db, session: string, contents: Bytes, chunkStart: nat, pos: nat, line: Bytes, c: nat,
                  b: nat)
    requires chunkStart < pos <= |contents| && NextLine(contents[pos..]) == Line(line)
    requires pos - chunkStart + |line| > TARGET_CHUNK
    ensures Plus(c, b, ToSend(link, db, session, contents, chunkStart, pos))
         == Emit(link, db, session, contents, chunkStart, pos, c, b,
                 ToSend(link, AfterEmit(link, db, session, contents, chunkStart, pos), session, contents, pos, pos))
  {
    hide Group, LinesOf, TailOf, Deliver, SendCut, NextLine, Emit, Plus;
    NextIsFirst(contents[pos..]);
    GroupEarly(contents[chunkStart..pos], LinesOf(contents[pos..]), TailOf(contents[pos..]));
    EmitFirst(link, db, session, contents, chunkStart, pos, contents[chunkStart..pos], c, b);
  }

  /** A line that fits: it is collected, and the chunk goes out once it is full. */
  lemma CollectLine(link: Link, db: Db, session: string, contents: Bytes, chunkStart: nat, pos: nat, line: Bytes,
                    c: nat, b: nat)
    requires chunkStart <= pos <= |contents| && NextLine(contents[pos..]) == Line(line)
    requires chunkStart == pos || pos - chunkStart + |line| <= TARGET_CHUNK
    ensures pos + |line| <= |contents| && contents[chunkStart..pos] + line == contents[chunkStart..pos + |line|]
    ensures var next := pos + |line|;
      Plus(c, b, ToSend(link, db, session, contents, chunkStart, pos))
      == if next - chunkStart >= TARGET_CHUNK
         then Emit(link, db, session, contents, chunkStart, next, c, b,
                   ToSend(link, AfterEmit(link, db, session, contents, chunkStart, next), session, contents, next,
                          next))
         else Plus(c, b, ToSend(link, db, session, contents, chunkStart, next))
  {
    hide Group, LinesOf, TailOf, Deliver, SendCut, NextLine, Emit, Plus;
    var rest := contents[pos..];
    var next := pos + |line|;
    NextIsFirst(rest);
    assert rest[..|line|] == line && rest[|line|..] == contents[next..];
    assert contents[pos..next] == line;
    SliceOn(contents, chunkStart, pos, next);
    GroupNext(contents[chunkStart..pos], LinesOf(rest), TailOf(rest));
    if next - chunkStart >= TARGET_CHUNK {
      EmitFirst(link, db, session, contents, chunkStart, next, contents[chunkStart..next], c, b);
    }
  }

  /** At the end of the file the rest of what was collected goes out. */
  lemma EmitLast(link: Link, db: Db, session: string, contents: Bytes, chunkStart: nat, pos: nat, c: nat, b: nat)
    requires chunkStart <= pos <= |contents| && NextLine(contents[pos..]).Partial?
    ensures Plus(c, b, ToSend(link, db, session, contents, chunkStart, pos))
         == if chunkStart == pos then Sent(db, c, b, None)
            else Emit(link, db, session, contents, chunkStart, pos, c, b,
                      Sent(AfterEmit(link, db, session, contents, chunkStart, pos), 0, 0, None))
    ensures CompletePrefix(contents[pos..]) == []
  {
    hide LinesOf, TailOf, Deliver, NextLine;
    NextIsFirst(contents[pos..]);
    NothingLeft(contents[pos..]);
    var acc := contents[chunkStart..pos];
    if acc != [] {
      EmitStep(link, db, session, contents[..chunkStart], acc, CutResult([], true));
      assert contents[..chunkStart] + acc == contents[..pos];
      ConcatUnit([acc]);
    }
  }

  lemma NothingLeft(rest: Bytes)
    requires LinesOf(rest) == []
    ensures CompletePrefix(rest) == []
  {
    CompletePrefixEmpty(rest);
  }

  lemma Begin(link: Link, db: Db, session: string, contents: Bytes, start: nat)
    requires start <= |contents|
    ensures contents[start..start] == []
    ensures Plus(0, 0, ToSend(link, db, session, contents, start, start))
         == SendCut(link, db, session, contents[..start], CutText(contents[start..]))
  {
    hide SendCut, Group;
    assert contents[start..start] == [];
  }

  lemma StopTooLong(link: Link, db: Db, session: string, contents: Bytes, chunkStart: nat, pos: nat)
    requires chunkStart <= pos <= |contents| && NextLine(contents[pos..]).TooLong?
    ensures ToSend(link, db, session, contents, chunkStart, pos) == Sent(db, 0, 0, Some(RecordTooLong))
  {
    hide NextLine, Group, LinesOf, TailOf;
    TooLongStops(contents[chunkStart..pos], contents[pos..]);
  }

  /** Reading a line moves the end of the complete prefix by nothing. */
  lemma EndStays(contents: Bytes, pos: nat, line: Bytes)
    requires pos <= |contents| && NextLine(contents[pos..]) == Line(line)
    ensures pos + |line| <= |contents|
    ensures line != []
    ensures pos + |line| + |CompletePrefix(contents[pos + |line|..])| == pos + |CompletePrefix(contents[pos..])|
  {
    hide IndexByte, FirstLine, HasLine;
    var rest := contents[pos..];
    FirstLineIsLine(rest);
    LineIsTerminated(line);
    assert rest == line + rest[|line|..] && rest[|line|..] == contents[pos + |line|..];
    CompletePrefixOfConcat(line, rest[|line|..]);
  }

  /** One complete line: it may push out the chunk before it, and may fill up its own. */
  method Collect(pending: Pending, line: Bytes, ghost contents: Bytes,
                 ghost pos: nat) returns (error: Option<SyncError>)
    requires pending.chunkStart <= pos <= |contents| && pending.chunk == contents[pending.chunkStart..pos]
    requires pending.prefixState == StateOf(pending.uploader.server.store.env.hasher, contents[..pending.chunkStart])
    requires NextLine(contents[pos..]) == Line(line) && pos + |line| <= |contents|
    modifies pending, pending.uploader, pending.uploader.server.store
    ensures var u := pending.uploader;
      var c, b := u.chunks - old(u.chunks), u.bytes - old(u.bytes);
      var before, after := old(u.server.store.Snapshot()), u.server.store.Snapshot();
      var due := ToSend(u.Settings(), before, pending.session, contents, old(pending.chunkStart), pos);
      && c >= 0 && b >= 0
      && (error.Some? ==> due == Sent(after, c, b, error))
      && (error.None? ==>
            && pending.chunkStart <= pos + |line| && pending.chunk == contents[pending.chunkStart..pos + |line|]
            && pending.prefixState == StateOf(u.server.store.env.hasher, contents[..pending.chunkStart])
            && due == Plus(c, b, ToSend(u.Settings(), after, pending.session, contents, pending.chunkStart,
                                        pos + |line|)))
  {
    hide ToSend, Deliver, NextLine, StateOf;
    ghost var link, session, store := pending.uploader.Settings(), pending.session, pending.uploader.server.store;
    ghost var c: nat, b: nat := 0, 0;
    PlusPlus(0, 0, 0, 0, ToSend(link, store.Snapshot(), session, contents, pending.chunkStart, pos));
    if |pending.chunk| > 0 && |pending.chunk| + |line| > TARGET_CHUNK {
      EmitEarly(link, store.Snapshot(), session, contents, pending.chunkStart, pos, line, 0, 0);
      c, b := 1, |pending.chunk|;
      error := pending.Flush(contents, pos);
      if error.Some? {
        return;
      }
    }
    CollectLine(link, store.Snapshot(), session, contents, pending.chunkStart, pos, line, c, b);
    pending.chunk := pending.chunk + line;
    if |pending.chunk| >= TARGET_CHUNK {
      error := pending.Flush(contents, pos + |line|);
      if error.Some? {
        return;
      }
    }
    return None;
  }

  /** The rest of `ReadChunks`, from the checkpoint to the end of the file: read, collect, emit. */
  method ReadOn(reader: Reader, pending: Pending) returns (offset: nat, error: Option<SyncError>)
    requires reader.Valid() && reader.pos == pending.chunkStart && pending.chunk == []
    requires pending.prefixState == StateOf(pending.uploader.server.store.env.hasher, reader.data[..reader.pos])
    modifies reader, pending, pending.uploader, pending.uploader.server.store
    ensures var start, uploader := old(reader.pos), pending.uploader;
      var s := SendCut(uploader.Settings(), old(uploader.server.store.Snapshot()), pending.session,
                       reader.data[..start], CutText(reader.data[start..]));
      && s == Sent(uploader.server.store.Snapshot(), s.chunks, s.bytes, error)
      && uploader.chunks == old(uploader.chunks) + s.chunks
      && uploader.bytes == old(uploader.bytes) + s.bytes
      && (error.None? ==> offset == start + |CompletePrefix(reader.data[start..])|)
  {
    hide ToSend, SendCut, CutText, Deliver, NextLine, LinesOf, TailOf, CompletePrefix, StateOf;
    var uploader, store, contents := pending.uploader, pending.uploader.server.store, reader.data;
    offset := reader.pos;
    ghost var link, session := uploader.Settings(), pending.session;
    ghost var all := SendCut(link, store.Snapshot(), session, contents[..offset], CutText(contents[offset..]));
    ghost var end := offset + |CompletePrefix(contents[offset..])|;
    Begin(link, store.Snapshot(), session, contents, offset);
    while true
      invariant reader.Valid() && reader.pos == offset
      invariant pending.chunkStart <= offset && pending.chunk == contents[pending.chunkStart..offset]
      invariant pending.prefixState == StateOf(store.env.hasher, contents[..pending.chunkStart])
      invariant uploader.chunks >= old(uploader.chunks) && uploader.bytes >= old(uploader.bytes)
      invariant all == Plus(uploader.chunks - old(uploader.chunks), uploader.bytes - old(uploader.bytes),
                            ToSend(link, store.Snapshot(), session, contents, pending.chunkStart, offset))
      invariant offset + |CompletePrefix(contents[offset..])| == end
      decreases |contents| - offset
    {
      ghost var c, b := uploader.chunks - old(uploader.chunks), uploader.bytes - old(uploader.bytes);
      var next := ReadLine(reader);
      if next.TooLong? {
        StopTooLong(link, store.Snapshot(), session, contents, pending.chunkStart, offset);
        return offset, Some(RecordTooLong);
      }
      if next.Partial? {
        EmitLast(link, store.Snapshot(), session, contents, pending.chunkStart, offset, c, b);
        break;
      }
      EndStays(contents, offset, next.line);
      error := Collect(pending, next.line, contents, offset);
      if error.Some? {
        return;
      }
      offset := offset + |next.line|;
    }
    error := pending.Flush(contents, offset);
  }

  /** `ReadChunks`: checks the file against the checkpoint, then emits everything behind it. */
  method ReadChunks(uploader: Uploader, session: string, contents: Bytes, checkpoint: Checkpoint)
    returns (offset: nat, error: Option<SyncError>)
    modifies uploader, uploader.server.store
    ensures var before := old(uploader.server.store.Snapshot());
      var s := SyncFile(uploader.Settings(), before, session, contents, checkpoint);
      && s == Sent(uploader.server.store.Snapshot(), s.chunks, s.bytes, error)
      && uploader.chunks == old(uploader.chunks) + s.chunks
      && uploader.bytes == old(uploader.bytes) + s.bytes
    ensures var start := checkpoint.nextOffset;
      error.None? ==> start <= |contents| && offset == start + |CompletePrefix(contents[start..])|
  {
    hide SendCut, CutText, EqualFold, CompletePrefix;
    var hasher, start := uploader.server.store.env.hasher, checkpoint.nextOffset;
    if |contents| < start {
      return start, Some(SourceTooShort);
    }
    var prefixState := Extend(hasher, hasher.init, contents[..start]);
    if !EqualFold(hasher.digest(prefixState), checkpoint.prefixSha) {
      return start, Some(PrefixRewritten);
    }
    if start > 0 && contents[start - 1] != NEWLINE {
      return start, Some(OffBoundary);
    }
    var reader := new Reader(contents, start);
    var pending := new Pending(uploader, session, start, prefixState);
    offset, error := ReadOn(reader, pending);
  }

  // A whole run.

  /** The tables after a run, what it counted, and what stopped it. */
  datatype Ran = Ran(db: Db, sessions: nat, chunks: nat, bytes: nat, error: Option<SyncError>)

  /** Every source in turn against the checkpoints of `plan`, up to the first failure. */
  function SyncSources(link: Link, plan: map<string, Checkpoint>, db: Db, sources: seq<Source>): Ran
    decreases |sources|
  {
    if sources == [] then Ran(db, 0, 0, 0, None)
    else if sources[0].sessionId !in plan then Ran(db, 0, 0, 0, Some(CheckpointOmitted(sources[0].sessionId)))
    else
      var s := SyncFile(link, db, sources[0].sessionId, sources[0].contents, plan[sources[0].sessionId]);
      if s.error.Some? then Ran(s.db, 0, s.chunks, s.bytes, s.error)
      else Counted(s, SyncSources(link, plan, s.db, sources[1..]))
  }

  function Counted(s: Sent, rest: Ran): Ran {
    rest.(sessions := rest.sessions + (if s.chunks > 0 then 1 else 0), chunks := s.chunks + rest.chunks,
          bytes := s.bytes + rest.bytes)
  }

  function ManifestOf(sources: seq<Source>): seq<LocalSession> {
    seq(|sources|, i requires 0 <= i < |sources| => LocalSession(sources[i].sessionId, sources[i].size))
  }

  datatype RunResult = RunResult(sessions: nat, chunks: nat, bytes: nat)

  /** The part of `Run` behind the plan. */
  method UploadAll(uploader: Uploader, plan: map<string, Checkpoint>, sources: seq<Source>)
    returns (sessions: nat, error: Option<SyncError>)
    requires uploader.chunks == uploader.bytes == 0
    modifies uploader, uploader.server.store
    ensures Ran(uploader.server.store.Snapshot(), sessions, uploader.chunks, uploader.bytes, error)
         == SyncSources(uploader.Settings(), plan, old(uploader.server.store.Snapshot()), sources)
  {
    hide SyncFile;
    sessions := 0;
    ghost var link := uploader.Settings();
    ghost var all := SyncSources(link, plan, uploader.server.store.Snapshot(), sources);
    assert sources[0..] == sources;
    for i := 0 to |sources|
      invariant all == AllCounted(sessions, uploader.chunks, uploader.bytes,
                                  SyncSources(link, plan, uploader.server.store.Snapshot(), sources[i..]))
    {
      var source := sources[i];
      SourcesStep(link, plan, uploader.server.store.Snapshot(), sources, i, i + 1);
      if source.sessionId !in plan {
        return sessions, Some(CheckpointOmitted(source.sessionId));
      }
      var before := uploader.chunks;
      var offset;
      offset, error := ReadChunks(uploader, source.sessionId, source.contents, plan[source.sessionId]);
      if error.Some? {
        return;
      }
      if uploader.chunks > before {
        sessions := sessions + 1;
      }
    }
    return sessions, None;
  }

  ghost function AllCounted(sessions: nat, chunks: nat, bytes: nat, rest: Ran): Ran {
    rest.(sessions := sessions + rest.sessions, chunks := chunks + rest.chunks, bytes := bytes + rest.bytes)
  }

  lemma SourcesStep(link: Link, plan: map<string, Checkpoint>, db: Db, sources: seq<Source>, i: nat, next: nat)
    requires i < |sources| && next == i + 1
    ensures SyncSources(link, plan, db, sources[i..])
         == if sources[i].sessionId !in plan then Ran(db, 0, 0, 0, Some(CheckpointOmitted(sources[i].sessionId)))
            else
              var s := SyncFile(link, db, sources[i].sessionId, sources[i].contents, plan[sources[i].sessionId]);
              if s.error.Some? then Ran(s.db, 0, s.chunks, s.bytes, s.error)
              else Counted(s, SyncSources(link, plan, s.db, sources[next..]))
  {
    hide SyncFile;
    assert sources[i..][1..] == sources[next..];
  }

  /** `Run`: plan the whole manifest, then sync every source. `planHeard`: the plan request is answered. */
  method Run(server: Server, client: Client, network: ChunkRequest -> Delivery, planHeard: bool, sources: seq<Source>)
    returns (result: RunResult, error: Option<SyncError>)
    modifies server.store
    ensures var env, db, ids := server.store.env, old(server.store.Snapshot()), IdsOf(ManifestOf(sources));
      if planHeard && PlanAccepts(env, db, client.device, AGENT, ManifestOf(sources)) then
        Ran(server.store.Snapshot(), result.sessions, result.chunks, result.bytes, error)
        == SyncSources(Link(env, server.ring, client, network), PlanOf(env, db, client.device, ids), db, sources)
      else
        && server.store.Snapshot() == db && result == RunResult(0, 0, 0)
        && error.Some? && (if planHeard then error.value.PlanRefused? else error.value.NoReply?)
  {
    hide SyncSources, PlanAccepts, PlanOf, IdsOf;
    var manifest: seq<LocalSession> := [];
    for i := 0 to |sources|
      invariant manifest == ManifestOf(sources[..i])
    {
      manifest := manifest + [LocalSession(sources[i].sessionId, sources[i].size)];
    }
    assert sources[..|sources|] == sources;
    if !planHeard {
      return RunResult(0, 0, 0), Some(NoReply);
    }
    var checkpoints := HandleSyncPlan(server, client.device, AGENT, manifest);
    if checkpoints.Err? {
      return RunResult(0, 0, 0), Some(PlanRefused(checkpoints.error));
    }
    var uploader := new Uploader(server, client, network);
    var sessions;
    sessions, error := UploadAll(uploader, checkpoints.value, sources);
    result := RunResult(sessions, uploader.chunks, uploader.bytes);
  }
}
