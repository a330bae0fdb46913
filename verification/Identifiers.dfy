/** Row ids over whole histories: given out once, for one row. */
module Identifiers {
  import opened Backfill
  import opened Basics
  import opened Deletion
  import opened Hashing
  import opened Invariant
  import opened Protocol
  import opened Records
  import opened Server
  import opened Store
  import opened Syncer
  import opened Tables
  import opened Vault

  ghost predicate Among(row: EventRow, rows: seq<EventRow>) {
    exists j :: 0 <= j < |rows| && rows[j] == row
  }

  /** An event row of `after` is a row of `before`, or has an id that had not been given out. */
  ghost predicate EventsStay(before: seq<EventRow>, last: nat, after: seq<EventRow>) {
    forall i :: 0 <= i < |after| ==> after[i].id > last || Among(after[i], before)
  }

  /** An id that had been given out in `db` still means the same row in `after`, if any; counters never go back. */
  ghost predicate IdsStay(db: Db, after: Db) {
    && db.lastEventId <= after.lastEventId && db.lastSessionId <= after.lastSessionId
    && EventsStay(db.events, db.lastEventId, after.events)
    && forall k :: k in after.sessions && after.sessions[k].id <= db.lastSessionId ==>
         k in db.sessions && db.sessions[k].id == after.sessions[k].id
  }

  lemma SameEventsStay(rows: seq<EventRow>, last: nat)
    ensures EventsStay(rows, last, rows)
  {
    forall i | 0 <= i < |rows| ensures Among(rows[i], rows) {
    }
  }

  lemma IdsStayTransitive(a: Db, b: Db, c: Db)
    requires IdsStay(a, b) && IdsStay(b, c)
    ensures IdsStay(a, c)
  {
    forall i | 0 <= i < |c.events| && c.events[i].id <= a.lastEventId
      ensures Among(c.events[i], a.events)
    {
      assert Among(c.events[i], b.events);
    }
  }

  lemma OneMoreStays(rows: seq<EventRow>, last: nat, row: EventRow)
    requires row.id > last
    ensures EventsStay(rows, last, rows + [row])
  {
    forall i | 0 <= i < |rows|
      ensures (rows + [row])[i] == rows[i] && Among(rows[i], rows)
    {
    }
  }

  lemma {:induction false} InsertEventsStay(trim: Bytes -> Bytes, db: Db, k: Key, chunkStart: nat, es: seq<Event>)
    requires InsertEvents(trim, db, k, chunkStart, es).Some?
    ensures var after := InsertEvents(trim, db, k, chunkStart, es).value;
      IdsStay(db, after) && after.sessions == db.sessions && after.lastSessionId == db.lastSessionId
    decreases |es|
  {
    hide HasEvent, SearchRows;
    if es == [] {
      SameEventsStay(db.events, db.lastEventId);
    } else {
      var next := InsertEvent(trim, db, k, chunkStart, es[0]).value;
      OneMoreStays(db.events, db.lastEventId, EventRow(db.lastEventId + 1, k, chunkStart, es[0]));
      InsertEventsStay(trim, next, k, chunkStart, es[1..]);
      IdsStayTransitive(db, next, InsertEvents(trim, next, k, chunkStart, es[1..]).value);
    }
  }

  lemma PutStays(env: Env, db: Db, c: ChunkRow, plain: Bytes, prefixSha: string, parsed: Parsed)
    ensures IdsStay(db, Put(env, db, c, plain, prefixSha, parsed).db)
  {
    hide InsertEvents, EqualFold, FindChunk, EventsStay;
    SameEventsStay(db.events, db.lastEventId);
    if InsertEvents(env.trim, db, c.key, c.start, parsed.events).Some? {
      InsertEventsStay(env.trim, db, c.key, c.start, parsed.events);
    }
  }

  lemma UploadStays(env: Env, ring: Keyring, db: Db, q: ChunkRequest)
    ensures IdsStay(db, Upload(env, ring, db, q).db)
  {
    hide Check, Put, EventsStay;
    SameEventsStay(db.events, db.lastEventId);
    if Check(env, ring, q).Ok? {
      var c := Check(env, ring, q).value;
      PutStays(env, db, c.row, c.plain, ToLower(q.prefixSha), c.parsed);
    }
  }

  lemma DeleteStays(env: Env, db: Db, k: Key)
    requires TablesOk(env.trim, db)
    ensures IdsStay(db, Delete(db, k).0)
  {
    hide EventsWithout, ChunksWithout, SearchWithout, SearchOf;
    SameEventsStay(db.events, db.lastEventId);
    EventsWithoutKeepsIds(db.events, k, db.lastEventId);
    var kept := EventsWithout(db.events, k);
    forall i | 0 <= i < |kept| ensures Among(kept[i], db.events) {
    }
  }

  lemma NextStays(env: Env, ring: Keyring, w: World, step: Step)
    requires Inv(env, ring, w.db)
    ensures IdsStay(w.db, Next(env, ring, w, step).db)
  {
    hide Upload, Delete, KeyOk, TablesOk, SessionIdsOk, EventsStay, OpensAt, CheckpointOf, ReplyError, TargetOf,
         IsPending;
    SameEventsStay(w.db.events, w.db.lastEventId);
    match step
    case PlanRun(n, client, session) =>
    case OpenFile(n, prefix) =>
    case UploadChunk(n, plain, heard) =>
      if n in w.runs && w.runs[n].phase.Reading? {
        UploadStays(env, ring, w.db, RunRequest(env, w.runs[n], plain));
      }
    case AnyRequest(q) => UploadStays(env, ring, w.db, q);
    case DeleteKey(k) => DeleteStays(env, w.db, k);
    case Restart(rebuilt) =>
    case AbortRun(n) =>
  }

  /**
   * Over every history of uploads, deletes and restarts an event or session id is given out at most once: a
   * row found later under an id that was given out before is that same row.
   */
  lemma {:induction false} IdsAreNeverReused(env: Env, ring: Keyring, w: World, steps: seq<Step>)
    requires Coherent(env.decoder) && Inv(env, ring, w.db)
    ensures IdsStay(w.db, Execute(env, ring, w, steps).db)
    decreases |steps|
  {
    hide Inv, Next, IdsStay;
    if steps == [] {
      NothingMoves(w.db);
    } else {
      var after := Next(env, ring, w, steps[0]);
      NextStays(env, ring, w, steps[0]);
      NextExtends(env, ring, w, steps[0], Key("", "", ""));
      IdsAreNeverReused(env, ring, after, steps[1..]);
      IdsStayTransitive(w.db, after.db, Execute(env, ring, after, steps[1..]).db);
    }
  }

  lemma NothingMoves(db: Db)
    ensures IdsStay(db, db)
  {
    SameEventsStay(db.events, db.lastEventId);
  }
}
