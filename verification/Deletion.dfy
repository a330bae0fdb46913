/** Deleting a session, and the search table as the image of the event table. */
module Deletion {
  import opened Basics
  import opened Tables
  import opened Vault
  import opened Invariant

  lemma {:induction false} ChunksWithoutSelects(rows: seq<ChunkRow>, k: Key, l: Key)
    ensures ChunksOf(ChunksWithout(rows, k), l) == if l == k then [] else ChunksOf(rows, l)
  {
    if rows != [] {
      var before, last := rows[..|rows| - 1], rows[|rows| - 1];
      ChunksWithoutSelects(before, k, l);
      ConcatUnit(ChunksWithout(before, k));
      ConcatUnit(ChunksOf(before, l));
      if last.key != k {
        ChunksOfSnoc(ChunksWithout(before, k), last, l);
      }
    }
  }

  lemma {:induction false} EventsWithoutSelects(rows: seq<EventRow>, k: Key, l: Key)
    ensures IndexedOf(EventsWithout(rows, k), l) == if l == k then [] else IndexedOf(rows, l)
  {
    if rows != [] {
      var before, last := rows[..|rows| - 1], rows[|rows| - 1];
      EventsWithoutSelects(before, k, l);
      ConcatUnit(EventsWithout(before, k));
      ConcatUnit(IndexedOf(before, l));
      if last.key != k {
        IndexedOfSnoc(EventsWithout(before, k), last, l);
      }
    }
  }

  /** The surviving event rows are rows of before, in the same order, and none belongs to the deleted session. */
  lemma {:induction false} EventsWithoutKeepsIds(rows: seq<EventRow>, k: Key, last: nat)
    requires EventIdsOk(rows, last)
    ensures EventIdsOk(EventsWithout(rows, k), last)
    ensures forall i :: 0 <= i < |EventsWithout(rows, k)| ==>
      EventsWithout(rows, k)[i].key != k && exists j :: 0 <= j < |rows| && rows[j] == EventsWithout(rows, k)[i]
  {
    if rows != [] {
      var before := rows[..|rows| - 1];
      EventsWithoutKeepsIds(before, k, last);
      var kept := EventsWithout(before, k);
      forall i | 0 <= i < |kept|
        ensures kept[i].id < rows[|rows| - 1].id && exists j :: 0 <= j < |rows| && rows[j] == kept[i]
      {
        var j :| 0 <= j < |before| && before[j] == kept[i];
        assert rows[j] == kept[i];
      }
    }
  }

  lemma SearchWithoutSnoc(rows: seq<SearchRow>, found: seq<SearchRow>, ids: set<nat>)
    requires |found| <= 1
    ensures SearchWithout(rows + found, ids)
         == SearchWithout(rows, ids) + if found != [] && found[0].rowid in ids then [] else found
  {
    if found == [] {
      ConcatUnit(rows);
    } else {
      assert (rows + found)[..|rows|] == rows;
    }
  }

  /** Dropping the search rows of the deleted event ids leaves exactly those of the surviving events. */
  lemma {:induction false} SearchWithoutMatches(trim: Bytes -> Bytes, rows: seq<EventRow>, k: Key, ids: set<nat>)
    requires forall i :: 0 <= i < |rows| ==> (rows[i].id in ids <==> rows[i].key == k)
    ensures SearchWithout(SearchOf(trim, rows), ids) == SearchOf(trim, EventsWithout(rows, k))
  {
    hide SearchText;
    if rows != [] {
      var before, last := rows[..|rows| - 1], rows[|rows| - 1];
      SearchWithoutMatches(trim, before, k, ids);
      SearchWithoutSnoc(SearchOf(trim, before), SearchRows(trim, last), ids);
      ConcatUnit(EventsWithout(before, k));
      ConcatUnit(SearchOf(trim, EventsWithout(before, k)));
      SearchOfSnoc(trim, EventsWithout(before, k), last);
    }
  }

  lemma EventIdsPickKey(rows: seq<EventRow>, k: Key, last: nat)
    requires EventIdsOk(rows, last)
    ensures forall i :: 0 <= i < |rows| ==> (rows[i].id in EventIds(rows, k) <==> rows[i].key == k)
  {
    forall i | 0 <= i < |rows| && rows[i].id in EventIds(rows, k)
      ensures rows[i].key == k
    {
      var j :| 0 <= j < |rows| && rows[j].key == k && rows[j].id == rows[i].id;
      assert i == j;
    }
  }

  /** The selections a delete leaves. */
  lemma DeleteSelects(env: Env, ring: Keyring, db: Db, k: Key)
    requires Inv(env, ring, db)
    ensures var after := Delete(db, k).0;
      forall l ::
        && ChunksOf(after.chunks, l) == (if l == k then [] else ChunksOf(db.chunks, l))
        && IndexedOf(after.events, l) == (if l == k then [] else IndexedOf(db.events, l))
  {
    hide ChunksOf, IndexedOf, KeyOk, TablesOk;
    if k in db.sessions {
      forall l
        ensures ChunksOf(ChunksWithout(db.chunks, k), l) == (if l == k then [] else ChunksOf(db.chunks, l))
        ensures IndexedOf(EventsWithout(db.events, k), l) == (if l == k then [] else IndexedOf(db.events, l))
      {
        ChunksWithoutSelects(db.chunks, k, l);
        EventsWithoutSelects(db.events, k, l);
      }
    } else {
      assert KeyOk(env, ring, db, k);
      UnknownHasNoRows(env, ring, db, k);
    }
  }

  /** The event and search tables a delete leaves. */
  lemma DeleteTables(env: Env, ring: Keyring, db: Db, k: Key)
    requires Inv(env, ring, db)
    ensures var after := Delete(db, k).0;
      && TablesOk(env.trim, after) && SessionIdsOk(after)
      && (forall i :: 0 <= i < |after.events| ==> after.events[i].key != k)
  {
    hide KeyOk, SearchOf, SearchWithout, EventsWithout, EventIds;
    if k in db.sessions {
      EventIdsPickKey(db.events, k, db.lastEventId);
      SearchWithoutMatches(env.trim, db.events, k, EventIds(db.events, k));
      EventsWithoutKeepsIds(db.events, k, db.lastEventId);
    } else {
      assert KeyOk(env, ring, db, k);
      UnknownHasNoRows(env, ring, db, k);
      UnknownHasNoEvents(db.events, k);
    }
  }

  /**
   * A delete removes one session's rows from all four tables and nothing else, keeps the invariant, and
   * keeps both id counters, so that no id is ever given out twice.
   */
  lemma DeleteKeepsInvariant(env: Env, ring: Keyring, db: Db, k: Key)
    requires Inv(env, ring, db)
    ensures var (after, found) := Delete(db, k);
      && Inv(env, ring, after)
      && found == (k in db.sessions)
      && (!found ==> after == db)
      && k !in after.sessions
      && ChunksOf(after.chunks, k) == [] && IndexedOf(after.events, k) == []
      && (forall i :: 0 <= i < |after.events| ==> after.events[i].key != k)
      && (forall i :: 0 <= i < |after.search| ==> after.search[i].key != k)
      && SameElsewhere(db, after, k)
      && after.lastEventId == db.lastEventId && after.lastSessionId == db.lastSessionId
  {
    hide KeyOk, ChunksOf, IndexedOf, TablesOk, SessionIdsOk, EventsWithout, ChunksWithout, SearchWithout, EventIds;
    var after := Delete(db, k).0;
    DeleteSelects(env, ring, db, k);
    DeleteTables(env, ring, db, k);
    NothingReplays(env, ring, after, k);
    forall l
      ensures KeyOk(env, ring, after, l)
    {
      assert KeyOk(env, ring, db, l);
      if l != k { KeyOkElsewhere(env, ring, db, after, k, l); }
    }
    SearchKeys(env.trim, after, k);
  }

  lemma SearchKeys(trim: Bytes -> Bytes, db: Db, k: Key)
    requires TablesOk(trim, db) && forall i :: 0 <= i < |db.events| ==> db.events[i].key != k
    ensures forall i :: 0 <= i < |db.search| ==> db.search[i].key != k
  {
    hide SearchOf;
    var pick := SearchCorresponds(trim, db.events);
    forall i | 0 <= i < |db.search|
      ensures db.search[i].key != k
    {
      assert Indexes(trim, db.search[i], db.events[pick[i]]);
    }
  }

  lemma NothingReplays(env: Env, ring: Keyring, db: Db, k: Key)
    requires ChunksOf(db.chunks, k) == [] && IndexedOf(db.events, k) == [] && k !in db.sessions
    ensures KeyOk(env, ring, db, k)
  {
  }

  lemma UnknownHasNoRows(env: Env, ring: Keyring, db: Db, k: Key)
    requires KeyOk(env, ring, db, k) && k !in db.sessions
    ensures ChunksOf(db.chunks, k) == [] && IndexedOf(db.events, k) == []
  {
  }

  lemma {:induction false} UnknownHasNoEvents(rows: seq<EventRow>, k: Key)
    requires IndexedOf(rows, k) == []
    ensures forall i :: 0 <= i < |rows| ==> rows[i].key != k
  {
    if rows != [] { UnknownHasNoEvents(rows[..|rows| - 1], k); }
  }

  /** Search row `s` makes event row `r` findable by its text, its tool's name and its tool's status. */
  predicate Indexes(trim: Bytes -> Bytes, s: SearchRow, r: EventRow) {
    && s.rowid == r.id && s.key == r.key && s.at == r.event.at && s.text != []
    && s.text == trim(r.event.text + [SPACE] + r.event.toolName + [SPACE] + r.event.toolStatus)
  }

  predicate NothingToSearch(trim: Bytes -> Bytes, r: EventRow) {
    trim(r.event.text + [SPACE] + r.event.toolName + [SPACE] + r.event.toolStatus) == []
  }

  /** `pick` maps search rows to event rows, strictly increasing, and hits exactly the searchable events. */
  ghost predicate Matching(trim: Bytes -> Bytes, search: seq<SearchRow>, rows: seq<EventRow>, pick: seq<nat>) {
    && |pick| == |search|
    && (forall i :: 0 <= i < |pick| ==> pick[i] < |rows| && Indexes(trim, search[i], rows[pick[i]]))
    && (forall i, j :: 0 <= i < j < |pick| ==> pick[i] < pick[j])
    && (forall n :: 0 <= n < |rows| && n !in pick ==> NothingToSearch(trim, rows[n]))
  }

  /** An event has a search row exactly when it has something to search, and then the one that indexes it. */
  lemma SearchRowIndexes(trim: Bytes -> Bytes, r: EventRow)
    ensures SearchRows(trim, r) == [] <==> NothingToSearch(trim, r)
    ensures SearchRows(trim, r) != [] ==> |SearchRows(trim, r)| == 1 && Indexes(trim, SearchRows(trim, r)[0], r)
  {
  }

  lemma MatchingSnoc(trim: Bytes -> Bytes, search: seq<SearchRow>, rows: seq<EventRow>, pick: seq<nat>, r: EventRow)
    requires Matching(trim, search, rows, pick)
    ensures SearchRows(trim, r) == [] ==> Matching(trim, search, rows + [r], pick)
    ensures SearchRows(trim, r) != [] ==> Matching(trim, search + SearchRows(trim, r), rows + [r], pick + [|rows|])
  {
    SearchRowIndexes(trim, r);
    hide SearchRows, Indexes, NothingToSearch;
    var wider := pick + [|rows|];
    assert wider[|pick|] == |rows|;
    assert forall n :: n in pick ==> n in wider;
  }

  /**
   * One search row per event with something to search, found under the event's own id with its key and
   * position, and no other row.
   */
  lemma {:induction false} SearchCorresponds(trim: Bytes -> Bytes, rows: seq<EventRow>) returns (pick: seq<nat>)
    ensures Matching(trim, SearchOf(trim, rows), rows, pick)
  {
    if rows == [] {
      pick := [];
    } else {
      hide Matching, SearchRows, SearchOf;
      var before, last := rows[..|rows| - 1], rows[|rows| - 1];
      pick := SearchCorresponds(trim, before);
      MatchingSnoc(trim, SearchOf(trim, before), before, pick, last);
      ConcatUnit(SearchOf(trim, before));
      assert rows == before + [last];
      SearchOfSnoc(trim, before, last);
      pick := if SearchRows(trim, last) == [] then pick else pick + [|before|];
    }
  }
}
