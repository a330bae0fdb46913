/** The store: four tables updated in place, one transaction per method. */
module Store {
  import opened Basics
  import opened Hashing
  import opened Ordering
  import opened Paging
  import opened Records
  import opened Tables
  import Utf8

  datatype Checkpoint = Checkpoint(nextOffset: nat, prefixSha: string)
  datatype PendingSession = PendingSession(key: Key, nextOffset: nat)
  datatype BackfillError = SessionChanged
  datatype NotFound = NotFound

  function StartOf(c: ChunkRow): nat { c.start }
  function AtOf(e: Event): nat { e.at }

  /** The offset and prefix digest the server reports for a session. */
  function CheckpointOf(env: Env, db: Db, k: Key): Result<Checkpoint, StoreError> {
    if k !in db.sessions then Ok(Checkpoint(0, env.hasher.digest(env.hasher.init)))
    else match db.sessions[k].hashState
      case None => Err(NoPrefixState)
      case Some(state) => Ok(Checkpoint(db.sessions[k].nextOffset, env.hasher.digest(Extend(env.hasher, state, []))))
  }

  predicate IsPending(row: SessionRow) {
    row.hashState.None? || row.metadataVersion < 1
  }

  /** The events of a session in the order a query returns them. */
  function EventsOf(db: Db, k: Key): seq<Event> {
    SortBy(AtOf, EventsIn(IndexedOf(db.events, k)))
  }

  /** The chunk that holds the tool output recorded at `at`. */
  function LocateOutput(rows: seq<EventRow>, chunks: seq<ChunkRow>, k: Key, at: nat): Option<ChunkRow> {
    if rows == [] then None
    else
      var last := rows[|rows| - 1];
      if last.key == k && last.event.at == at && last.event.kind == ToolOutputKind then
        FindChunk(chunks, k, last.chunkStart)
      else LocateOutput(rows[..|rows| - 1], chunks, k, at)
  }

  /** `pending` lists, by increasing id and once each, the pending sessions that are not still in `todo`. */
  ghost predicate ListsPending(sessions: map<Key, SessionRow>, pending: seq<PendingSession>, todo: set<Key>) {
    && (forall i :: 0 <= i < |pending| ==>
          && pending[i].key in sessions && IsPending(sessions[pending[i].key]) && pending[i].key !in todo
          && pending[i].nextOffset == sessions[pending[i].key].nextOffset)
    && (forall k :: k in sessions && IsPending(sessions[k]) && k !in todo ==> Lists(pending, k))
    && (forall i, j :: 0 <= i < j < |pending| ==>
          pending[i].key != pending[j].key && sessions[pending[i].key].id <= sessions[pending[j].key].id)
    && (forall i, k :: 0 <= i < |pending| && k in todo && k in sessions ==>
          sessions[pending[i].key].id <= sessions[k].id)
  }

  ghost predicate Lists(pending: seq<PendingSession>, k: Key) {
    exists i :: 0 <= i < |pending| && pending[i].key == k
  }

  lemma ListOneMore(sessions: map<Key, SessionRow>, pending: seq<PendingSession>, todo: set<Key>, k: Key)
    requires ListsPending(sessions, pending, todo) && k in todo && k in sessions && IsPending(sessions[k])
    requires forall l :: l in todo ==> l in sessions && sessions[k].id <= sessions[l].id
    ensures ListsPending(sessions, pending + [PendingSession(k, sessions[k].nextOffset)], todo - {k})
  {
    var more := pending + [PendingSession(k, sessions[k].nextOffset)];
    assert more[|pending|].key == k;
    forall l | l in sessions && IsPending(sessions[l]) && l !in todo - {k}
      ensures Lists(more, l)
    {
      if l != k {
        assert Lists(pending, l);
        var i :| 0 <= i < |pending| && pending[i].key == l;
        assert more[i].key == l;
      }
    }
  }

  /** `f` is what is unread of event `e` from byte `start` of its text. */
  predicate Unread(f: Fragment, e: Event, start: nat) {
    start <= |e.text| && f == Fragment(e.(text := e.text[start..]), start, false, false)
  }

  /** The rows of a page query are what is left to read, the first from the cursor's text offset on. */
  lemma RestRows(es: seq<Event>, cur: Cursor, found: seq<Event>)
    requires ValidCursor(es, cur) && found == From(es, if cur.textOffset > 0 then cur.after else cur.after + 1)
    ensures |Rest(es, cur)| == |found|
    ensures forall i :: 0 <= i < |found| ==> Unread(Rest(es, cur)[i], found[i], if i == 0 then cur.textOffset else 0)
  {
    hide From, Utf8.Valid;
    forall i | 0 <= i < |found|
      ensures Unread(Rest(es, cur)[i], found[i], if i == 0 then cur.textOffset else 0)
    {
      assert found[i].text[0..] == found[i].text;
    }
  }

  /** One turn of the page loop: what the next row alone would give decides how the page goes on. */
  lemma FillAt(rest: seq<Fragment>, i: nat, next: nat, limit: nat, budget: int)
    requires i < |rest| && next == i + 1 && limit > 0 && !rest[i].moreText
    ensures var own := Fill([rest[i]], 1, budget);
      && |own| <= 1
      && (own == [] || own[0].moreText ==> Fill(rest[i..], limit, budget) == own)
      && (own != [] && !own[0].moreText ==>
            && own == [rest[i]]
            && Fill(rest[i..], limit, budget)
            == own + Fill(rest[next..], limit - 1, budget - |own[0].event.text|))
  {
    hide Utf8.Truncate;
    assert rest[i..][1..] == rest[next..];
    assert [rest[i]][1..] == [];
  }

  lemma FillOne(f: Fragment, budget: int)
    ensures var text := f.event.text;
      Fill([f], 1, budget)
      == if budget <= 0 then []
         else if |text| <= budget then [f]
         else if Utf8.Truncate(text, budget) == [] then []
         else [Head(f, |Utf8.Truncate(text, budget)|)]
  {
    hide Utf8.Truncate;
    assert [f][1..] == [];
  }

  lemma FillDone(rest: seq<Fragment>, limit: nat, budget: int)
    requires rest == [] || limit == 0
    ensures Fill(rest, limit, budget) == []
  {
  }

  /** Whether a cursor is valid shows on the first row of its page query. */
  lemma FirstRowDecides(es: seq<Event>, cur: Cursor, found: seq<Event>)
    requires found == From(es, if cur.textOffset > 0 then cur.after else cur.after + 1)
    ensures ValidCursor(es, cur) <==> cur.textOffset == 0 || (found != [] && ResumesAt(found[0], cur))
  {
    hide From, ResumesAt;
  }

  lemma InsertNothing(trim: Bytes -> Bytes, db: Db, c: ChunkRow, es: seq<Event>)
    requires es == []
    ensures InsertEvents(trim, db, c.key, c.start, es) == Some(db)
  {
  }

  lemma InsertNext(trim: Bytes -> Bytes, db: Db, k: Key, chunkStart: nat, es: seq<Event>, i: nat, next: nat)
    requires i < |es| && next == i + 1
    ensures InsertEvents(trim, db, k, chunkStart, es[i..])
         == match InsertEvent(trim, db, k, chunkStart, es[i])
            case None => None
            case Some(more) => InsertEvents(trim, more, k, chunkStart, es[next..])
  {
    hide InsertEvent;
    assert es[i..][1..] == es[next..];
  }

  class Store {
    const env: Env
    var sessions: map<Key, SessionRow>
    var chunks: seq<ChunkRow>
    var events: seq<EventRow>
    var search: seq<SearchRow>
    var lastSessionId: nat
    var lastEventId: nat

    /** The state of the tables as a value. */
    function Snapshot(): Db
      reads this
    {
      Db(sessions, chunks, events, search, lastSessionId, lastEventId)
    }

    constructor (env: Env)
      ensures this.env == env && Snapshot() == EMPTY_DB
    {
      this.env := env;
      sessions, chunks, events, search := map[], [], [], [];
      lastSessionId, lastEventId := 0, 0;
    }

    /** Abandons a transaction. */
    method Rollback(saved: Db)
      modifies this
      ensures Snapshot() == saved
    {
      sessions, chunks, events, search := saved.sessions, saved.chunks, saved.events, saved.search;
      lastSessionId, lastEventId := saved.lastSessionId, saved.lastEventId;
    }

    /** One checkpoint per requested session, or the first failure. */
    method Checkpoints(device: string, agent: string, ids: seq<string>) returns (r: Result<map<string,
                       Checkpoint>, StoreError>)
      ensures r.Ok? ==> forall id :: id in r.value <==> id in ids
      ensures r.Ok? ==>
        forall id :: id in ids ==> CheckpointOf(env, Snapshot(), Key(device, agent, id)) == Ok(r.value[id])
      ensures r.Err? ==> exists id :: id in ids && CheckpointOf(env, Snapshot(), Key(device, agent, id)) == Err(r.error)
    {
      var result: map<string, Checkpoint> := map[];
      for i := 0 to |ids|
        invariant forall id :: id in result <==> id in ids[..i]
        invariant forall id :: id in result ==> CheckpointOf(env, Snapshot(), Key(device, agent, id)) == Ok(result[id])
      {
        var k := Key(device, agent, ids[i]);
        assert ids[..i + 1] == ids[..i] + [ids[i]];
        if k !in sessions {
          result := result[ids[i] := Checkpoint(0, env.hasher.digest(env.hasher.init))];
          continue;
        }
        var row := sessions[k];
        if row.hashState.None? {
          return Err(NoPrefixState);
        }
        var digest := env.hasher.digest(Extend(env.hasher, row.hashState.value, []));
        result := result[ids[i] := Checkpoint(row.nextOffset, digest)];
      }
      assert ids[..|ids|] == ids;
      return Ok(result);
    }

    /** The upload transaction: it commits as a whole or leaves no trace. */
    method PutChunk(c: ChunkRow, plain: Bytes, prefixSha: string,
                    parsed: Parsed) returns (reply: Result<bool, StoreError>)
      modifies this
      ensures PutOutcome(Snapshot(), reply) == Put(env, old(Snapshot()), c, plain, prefixSha, parsed)
    {
      hide InsertEvents, Extend, EqualFold, FindChunk, HasEvent, SearchText;
      var saved := Snapshot();
      var row;
      if c.key !in sessions {
        if c.start != 0 || parsed.metadata.None? {
          return Err(NewSessionWithoutMetadata);
        }
        lastSessionId := lastSessionId + 1;
        row := SessionRow(lastSessionId, 0, parsed.metadata.value, parsed.lastActivity, Some(env.hasher.init), 1);
        sessions := sessions[c.key := row];
      } else {
        row := sessions[c.key];
      }
      if c.start < row.nextOffset {
        var stored := FindChunk(chunks, c.key, c.start);
        if stored.Some? && stored.value.end == c.end && stored.value.sha == c.sha {
          return Ok(true);
        }
        Rollback(saved);
        return Err(ConflictingChunk);
      }
      if c.start != row.nextOffset {
        Rollback(saved);
        return Err(OffsetConflict);
      }
      if row.hashState.None? {
        Rollback(saved);
        return Err(NoPrefixState);
      }
      var state := Extend(env.hasher, row.hashState.value, plain);
      if !EqualFold(env.hasher.digest(state), prefixSha) {
        Rollback(saved);
        return Err(PrefixMismatch);
      }
      if FindChunk(chunks, c.key, c.start).Some? {
        Rollback(saved);
        return Err(UniqueViolation);
      }
      chunks := chunks + [c];
      var i := 0;
      while i < |parsed.events|
        invariant 0 <= i <= |parsed.events|
        invariant chunks == saved.chunks + [c]
        invariant sessions == saved.sessions[c.key := row]
        invariant lastSessionId == if c.key in saved.sessions then saved.lastSessionId else row.id
        invariant InsertEvents(env.trim, saved, c.key, c.start, parsed.events)
               == InsertEvents(env.trim, saved.(events := events, search := search, lastEventId := lastEventId),
                               c.key, c.start, parsed.events[i..])
      {
        InsertNext(env.trim, saved.(events := events, search := search, lastEventId := lastEventId),
                   c.key, c.start, parsed.events, i, i + 1);
        var event := parsed.events[i];
        if HasEvent(events, c.key, event.at) {
          Rollback(saved);
          return Err(UniqueViolation);
        }
        lastEventId := lastEventId + 1;
        events := events + [EventRow(lastEventId, c.key, c.start, event)];
        var searchText := SearchText(env.trim, event);
        if searchText != [] {
          search := search + [SearchRow(lastEventId, searchText, c.key, event.at)];
        }
        ConcatUnit(search);
        i := i + 1;
      }
      InsertNothing(env.trim, saved.(events := events, search := search, lastEventId := lastEventId), c,
                    parsed.events[i..]);
      var last := if Before(parsed.lastActivity, row.lastActivity) then row.lastActivity else parsed.lastActivity;
      sessions := sessions[c.key := row.(nextOffset := c.end, hashState := Some(state), lastActivity := last)];
      return Ok(false);
    }

    /** Sessions whose hash state or metadata is still to be computed, by increasing id. */
    method PendingBackfills() returns (pending: seq<PendingSession>)
      ensures ListsPending(sessions, pending, {})
    {
      var todo := set k | k in sessions && IsPending(sessions[k]);
      pending := [];
      while todo != {}
        invariant forall k :: k in todo ==> k in sessions && IsPending(sessions[k])
        invariant ListsPending(sessions, pending, todo)
        decreases todo
      {
        LeastIdExists(sessions, todo);
        var k :| k in todo && forall l :: l in todo ==> sessions[k].id <= sessions[l].id;
        ListOneMore(sessions, pending, todo, k);
        pending := pending + [PendingSession(k, sessions[k].nextOffset)];
        todo := todo - {k};
      }
    }

    /** Stores a rebuilt hash state and metadata, unless the session moved on meanwhile. */
    method FinishBackfill(p: PendingSession, state: HashState, meta: Metadata) returns (r: Result<bool, BackfillError>)
      modifies this`sessions
      ensures r.Ok? <==>
        && p.key in old(sessions)
        && old(sessions)[p.key].nextOffset == p.nextOffset && IsPending(old(sessions)[p.key])
      ensures r.Err? ==> sessions == old(sessions)
      ensures r.Ok? ==> sessions == old(sessions)[p.key :=
        old(sessions)[p.key].(meta := meta, hashState := Some(state), metadataVersion := 1)]
    {
      if p.key in sessions && sessions[p.key].nextOffset == p.nextOffset && IsPending(sessions[p.key]) {
        sessions := sessions[p.key := sessions[p.key].(meta := meta, hashState := Some(state), metadataVersion := 1)];
        return Ok(true);
      }
      return Err(SessionChanged);
    }

    /** As much of one row as fits: the row from byte `start` of its text, cut at a character boundary. */
    method TakeRow(event: Event, start: nat, remaining: int) returns (taken: seq<Fragment>)
      requires start <= |event.text|
      ensures taken == Fill([Fragment(event.(text := event.text[start..]), start, false, false)], 1, remaining)
    {
      hide Utf8.Valid, Utf8.Truncate, Fill;
      FillOne(Fragment(event.(text := event.text[start..]), start, false, false), remaining);
      if remaining <= 0 {
        return [];
      }
      var text := event.text[start..];
      if |text| > remaining {
        text := Utf8.TruncateUtf8(text, remaining);
        if text == [] {
          return [];
        }
        assert text == event.text[start..][..|text|];
        return [Fragment(event.(text := text), start, true, true)];
      }
      return [Fragment(event.(text := text), start, false, false)];
    }

    /** The page loop: takes rows until the limit, the budget or a cut text ends the page. */
    method TakeRows(rows: seq<Event>, cur: Cursor, maxBytes: int, ghost rest: seq<Fragment>, ghost count: nat)
      returns (page: seq<Fragment>, next: Cursor)
      requires |rows| <= |rest| && (|rows| == |rest| || |rows| == count) && |rows| <= count
      requires forall i :: 0 <= i < |rows| ==> Unread(rest[i], rows[i], if i == 0 then cur.textOffset else 0)
      ensures page == Fill(rest, count, maxBytes)
      ensures next == NextCursor(cur, page)
    {
      hide Fill;
      page, next := [], cur;
      var used, i := 0, 0;
      assert rest[0..] == rest;
      ConcatUnit(Fill(rest, count, maxBytes));
      while i < |rows|
        invariant 0 <= i == |page| <= |rows|
        invariant Fill(rest, count, maxBytes) == page + Fill(rest[i..], count - i, maxBytes - used)
        invariant next == NextCursor(cur, page)
      {
        assert Unread(rest[i], rows[i], if i == 0 then cur.textOffset else 0);
        FillAt(rest, i, i + 1, count - i, maxBytes - used);
        var taken := TakeRow(rows[i], if i == 0 then cur.textOffset else 0, maxBytes - used);
        if taken == [] {
          ConcatUnit(page);
          return;
        }
        var fragment := taken[0];
        ConcatAssociative(page, taken, Fill(rest[i + 1..], count - i - 1, maxBytes - used - |fragment.event.text|));
        page := page + [fragment];
        next := Cursor(fragment.event.at,
                       if fragment.moreText then fragment.textOffset + |fragment.event.text| else 0);
        used := used + |fragment.event.text|;
        if fragment.moreText {
          return;
        }
        i := i + 1;
      }
      FillDone(rest[i..], count - i, maxBytes - used);
      ConcatUnit(page);
    }

    /** One page of a session's events after a cursor. */
    method Events(k: Key, after: int, textOffset: int, limit: int, maxBytes: int) returns (r: Result<Page, CursorError>)
      ensures r == if after < 0 || textOffset < 0 then Err(InvalidCursor)
                   else PageOf(EventsOf(Snapshot(), k), Cursor(after, textOffset), limit, maxBytes)
    {
      hide Fill, Utf8.Valid, From, EventsOf, Rest, ValidCursor, Unread;
      var count := PageLimit(limit);
      if after < 0 || textOffset < 0 {
        return Err(InvalidCursor);
      }
      var stored := EventsOf(Snapshot(), k);
      var cur := Cursor(after, textOffset);
      var found := From(stored, if textOffset > 0 then after else after + 1);
      var rows := if |found| > count then found[..count] else found;
      FirstRowDecides(stored, cur, found);
      if textOffset > 0 {
        if |rows| == 0 || rows[0].at != after {
          return Err(InvalidCursor);
        }
        if textOffset >= |rows[0].text| || !Utf8.Valid(rows[0].text[textOffset..]) {
          return Err(InvalidCursor);
        }
      }
      RestRows(stored, cur, found);
      var page, next := TakeRows(rows, cur, maxBytes, Rest(stored, cur), count);
      if textOffset > 0 && |page| == 0 {
        return Err(InvalidCursor);
      }
      return Ok(Page(page, next));
    }

    /** The chunk that holds the tool output recorded at `at`. */
    method EventChunk(k: Key, at: nat) returns (r: Result<ChunkRow, NotFound>)
      ensures r == match LocateOutput(events, chunks, k, at) case None => Err(NotFound) case Some(c) => Ok(c)
    {
      var i := |events|;
      assert events[..i] == events;
      while i > 0
        invariant 0 <= i <= |events|
        invariant LocateOutput(events, chunks, k, at) == LocateOutput(events[..i], chunks, k, at)
      {
        i := i - 1;
        assert events[..i + 1][..i] == events[..i];
        var row := events[i];
        if row.key == k && row.event.at == at && row.event.kind == ToolOutputKind {
          var c := FindChunk(chunks, k, row.chunkStart);
          return if c.Some? then Ok(c.value) else Err(NotFound);
        }
      }
      return Err(NotFound);
    }

    /** Exactly a session's chunks, by increasing start offset; a session without chunks is not found. */
    method Chunks(k: Key) returns (r: Result<seq<ChunkRow>, NotFound>)
      ensures r.Err? <==> ChunksOf(chunks, k) == []
      ensures r.Ok? ==> SortedBy(StartOf, r.value) && multiset(r.value) == multiset(ChunksOf(chunks, k))
      ensures r == if ChunksOf(chunks, k) == [] then Err(NotFound) else Ok(SortBy(StartOf, ChunksOf(chunks, k)))
    {
      var found := SortBy(StartOf, ChunksOf(chunks, k));
      SortBySorts(StartOf, ChunksOf(chunks, k));
      assert |multiset(found)| == |found| && |multiset(ChunksOf(chunks, k))| == |ChunksOf(chunks, k)|;
      if |found| == 0 {
        return Err(NotFound);
      }
      return Ok(found);
    }

    /** The delete transaction, with its cascade. */
    method DeleteSession(k: Key) returns (r: Result<bool, NotFound>)
      modifies this
      ensures Snapshot() == Delete(old(Snapshot()), k).0
      ensures r.Ok? == Delete(old(Snapshot()), k).1
    {
      var saved := Snapshot();
      search := SearchWithout(search, EventIds(events, k));
      if k !in sessions {
        Rollback(saved);
        return Err(NotFound);
      }
      sessions := sessions - {k};
      chunks := ChunksWithout(chunks, k);
      events := EventsWithout(events, k);
      return Ok(true);
    }
  }

  lemma LeastIdExists(sessions: map<Key, SessionRow>, todo: set<Key>)
    requires todo != {} && forall k :: k in todo ==> k in sessions
    ensures exists k :: k in todo && forall l :: l in todo ==> sessions[k].id <= sessions[l].id
    decreases todo
  {
    var k :| k in todo;
    if todo != {k} {
      LeastIdExists(sessions, todo - {k});
      var m :| m in todo - {k} && forall l :: l in todo - {k} ==> sessions[m].id <= sessions[l].id;
      var least := if sessions[k].id <= sessions[m].id then k else m;
      assert least in todo && forall l :: l in todo ==> sessions[least].id <= sessions[l].id;
    }
  }
}
