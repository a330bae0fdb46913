/** Reading a session page by page while the protocol goes on. */
module LiveReading {
  import opened Basics
  import opened Invariant
  import opened Paging
  import opened Protocol
  import opened Queries
  import opened Records
  import opened Replay
  import opened Server
  import opened Store
  import opened Tables
  import opened Vault

  /** What happens before one page request, and the limit of that request. */
  datatype Round = Round(steps: seq<Step>, limit: int)

  function AfterRounds(env: Env, ring: Keyring, w: World, rounds: seq<Round>): World
    decreases |rounds|
  {
    if rounds == [] then w else AfterRounds(env, ring, Execute(env, ring, w, rounds[0].steps), rounds[1..])
  }

  /** The page requests of a reading, each against the events stored at its time. */
  function CallsIn(env: Env, ring: Keyring, w: World, rounds: seq<Round>, k: Key): seq<Call>
    decreases |rounds|
  {
    if rounds == [] then []
    else
      var now := Execute(env, ring, w, rounds[0].steps);
      [Call(EventsOf(now.db, k), rounds[0].limit)] + CallsIn(env, ring, now, rounds[1..], k)
  }

  predicate NeverDeleted(rounds: seq<Round>, k: Key) {
    forall i :: 0 <= i < |rounds| ==> DeleteKey(k) !in rounds[i].steps
  }

  /** A session that is extended keeps its events in front. */
  lemma EventsExtend(env: Env, ring: Keyring, db: Db, after: Db, k: Key)
    requires Coherent(env.decoder) && Inv(env, ring, db) && Inv(env, ring, after) && Extends(env, ring, db, after, k)
    ensures EventsOf(db, k) <= EventsOf(after, k) && Readable(EventsOf(after, k))
  {
    hide EventsOf, TablesOk, SessionIdsOk, ChunksOf, IndexedOf, Readable, ReplayRows, RowOk;
    assert KeyOk(env, ring, db, k) && KeyOk(env, ring, after, k);
    EventsAreOneParse(env, ring, db, k);
    EventsAreOneParse(env, ring, after, k);
    ReplayIndexEvents(env, ring, k.session, ChunksOf(db.chunks, k));
    ReplayIndexEvents(env, ring, k.session, ChunksOf(after.chunks, k));
    EventsInPrefix(ViewOf(env, ring, db, k).index, ViewOf(env, ring, after, k).index);
  }

  lemma EventsInPrefix(a: seq<Indexed>, b: seq<Indexed>)
    requires a <= b
    ensures EventsIn(a) <= EventsIn(b)
  {
    assert forall i :: 0 <= i < |a| ==> a[i] == b[i];
  }

  /** The calls of a reading see an index that only grows. */
  lemma {:induction false} CallsGrow(env: Env, ring: Keyring, w: World, rounds: seq<Round>, k: Key)
    requires Coherent(env.decoder) && Inv(env, ring, w.db) && NeverDeleted(rounds, k)
    ensures var calls, end := CallsIn(env, ring, w, rounds, k), AfterRounds(env, ring, w, rounds);
      && Inv(env, ring, end.db)
      && EventsOf(w.db, k) <= EventsOf(end.db, k) && Readable(EventsOf(end.db, k))
      && Growing(calls, EventsOf(end.db, k))
      && forall i :: 0 <= i < |calls| ==> EventsOf(w.db, k) <= calls[i].events
    decreases |rounds|
  {
    hide Inv, Readable, EventsOf, Extends, Execute;
    if rounds == [] {
      ExtendsItself(env, ring, w.db, k);
      EventsExtend(env, ring, w.db, w.db, k);
    } else {
      var now, rest := Execute(env, ring, w, rounds[0].steps), rounds[1..];
      assert forall i :: 0 <= i < |rest| ==> rest[i] == rounds[i + 1];
      ExecutionExtends(env, ring, w, rounds[0].steps, k);
      EventsExtend(env, ring, w.db, now.db, k);
      CallsGrow(env, ring, now, rest, k);
      var end := EventsOf(AfterRounds(env, ring, now, rest).db, k);
      PrefixChain(EventsOf(w.db, k), EventsOf(now.db, k), end);
      GrowingCons(Call(EventsOf(now.db, k), rounds[0].limit), CallsIn(env, ring, now, rest, k), EventsOf(w.db, k), end);
    }
  }

  lemma PrefixChain<T>(a: seq<T>, b: seq<T>, c: seq<T>)
    requires a <= b <= c
    ensures a <= c
  {
  }

  lemma GrowingCons(first: Call, rest: seq<Call>, before: seq<Event>, final: seq<Event>)
    requires Growing(rest, final) && before <= first.events <= final
    requires forall i :: 0 <= i < |rest| ==> first.events <= rest[i].events
    ensures Growing([first] + rest, final)
    ensures forall i :: 0 <= i < |[first] + rest| ==> before <= ([first] + rest)[i].events
  {
    var all := [first] + rest;
    forall i | 0 < i < |all|
      ensures all[i] == rest[i - 1] && before <= all[i].events
    {
      PrefixChain(before, first.events, rest[i - 1].events);
    }
  }

  /**
   * Resumable reading. A reader that starts from (0, 0) and follows the returned cursors, with any limits and
   * a page budget of at least four bytes, while uploads, restarts and runs of all kinds go on, never has a
   * cursor refused; when a page comes back empty it has put together exactly the stored events, in order and
   * with complete texts; and it has not needed more pages than the events and bytes call for.
   */
  lemma ReaderGetsEverything(env: Env, ring: Keyring, w: World, rounds: seq<Round>, k: Key, limit: int, maxBytes: int)
    requires Coherent(env.decoder) && Inv(env, ring, w.db) && NeverDeleted(rounds, k) && maxBytes >= 4
    ensures var out := Follow(START, CallsIn(env, ring, w, rounds, k), maxBytes);
      var stored := EventsOf(AfterRounds(env, ring, w, rounds).db, k);
      var last := PageOf(stored, out.cursor, limit, maxBytes);
      && out.accepted
      && last.Ok?
      && (last.value.fragments == [] ==> Feed(Some(Reader([], false)), out.fragments) == Some(Reader(stored, false)))
      && out.pages <= |stored| + EventBytes(stored) / (maxBytes - 3)
  {
    hide Inv, EventsOf, Follow, PageOf, Feed, Growing, Readable, EventBytes;
    CallsGrow(env, ring, w, rounds, k);
    var calls, stored := CallsIn(env, ring, w, rounds, k), EventsOf(AfterRounds(env, ring, w, rounds).db, k);
    FollowingCursorsReadsAll(calls, stored, limit, maxBytes);
    ReadingTakesFewPages(calls, stored, maxBytes);
  }
}
