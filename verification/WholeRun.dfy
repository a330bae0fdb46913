/** A whole run, over several sources and any network, as an execution of the protocol. */
module WholeRun {
  import opened Basics
  import opened Chunker
  import opened Convergence
  import opened Invariant
  import opened Plan
  import opened Protocol
  import opened Records
  import opened Server
  import opened Store
  import opened Syncer
  import opened Tables
  import opened Vault

  // Steps of one run leave the others alone.

  predicate StepOf(step: Step, n: nat) {
    match step
    case OpenFile(m, _) => m == n
    case UploadChunk(m, _, _) => m == n
    case AbortRun(m) => m == n
    case _ => false
  }

  ghost predicate StepsOf(steps: seq<Step>, n: nat) {
    forall i :: 0 <= i < |steps| ==> StepOf(steps[i], n)
  }

  ghost predicate SameRun(w: World, after: World, m: nat) {
    (m in w.runs <==> m in after.runs) && (m in w.runs ==> after.runs[m] == w.runs[m])
  }

  lemma {:induction false} OthersUndisturbed(env: Env, ring: Keyring, w: World, steps: seq<Step>, n: nat, m: nat)
    requires StepsOf(steps, n) && m != n
    ensures SameRun(w, Execute(env, ring, w, steps), m)
    decreases |steps|
  {
    hide RunUpload, OpensAt, ReplyError;
    if steps != [] {
      assert StepOf(steps[0], n);
      var after := Next(env, ring, w, steps[0]);
      assert SameRun(w, after, m);
      hide Next, StepOf;
      assert forall i :: 0 <= i < |steps[1..]| ==> steps[1..][i] == steps[i + 1];
      OthersUndisturbed(env, ring, after, steps[1..], n, m);
    }
  }

  lemma {:induction false} UploadsAreOwn(link: Link, n: nat, session: string, read: Bytes, chunks: seq<Bytes>)
    ensures StepsOf(Uploads(link, n, session, read, chunks), n)
    decreases |chunks|
  {
    hide NextRequest;
    if chunks != [] { UploadsAreOwn(link, n, session, read + chunks[0], chunks[1..]); }
  }

  lemma FileStepsAreOwn(link: Link, n: nat, session: string, contents: Bytes, checkpoint: Checkpoint)
    ensures StepsOf(FileSteps(link, n, session, contents, checkpoint), n)
  {
    var start := checkpoint.nextOffset;
    if start <= |contents| {
      UploadsAreOwn(link, n, session, contents[..start], CutText(contents[start..]).chunks);
    }
  }

  lemma {:induction false} ExecuteConcat(env: Env, ring: Keyring, w: World, a: seq<Step>, b: seq<Step>)
    ensures Execute(env, ring, w, a + b) == Execute(env, ring, Execute(env, ring, w, a), b)
    decreases |a|
  {
    hide Next;
    if a == [] {
      ConcatUnit(b);
    } else {
      assert (a + b)[0] == a[0] && (a + b)[1..] == a[1..] + b;
      ExecuteConcat(env, ring, Next(env, ring, w, a[0]), a[1..], b);
    }
  }

  // The sources one after the other.

  /** The steps of a run over `sources`, its parts numbered from `n` on; it stops behind the first failure. */
  function SourcesSteps(link: Link, plan: map<string, Checkpoint>, db: Db, sources: seq<Source>, n: nat): seq<Step>
    decreases |sources|
  {
    if sources == [] || sources[0].sessionId !in plan then []
    else
      var session, contents := sources[0].sessionId, sources[0].contents;
      var s := SyncFile(link, db, session, contents, plan[session]);
      FileSteps(link, n, session, contents, plan[session])
      + if s.error.Some? then [] else SourcesSteps(link, plan, s.db, sources[1..], n + 1)
  }

  /** Part `n` of a run has been given the checkpoint `c`. */
  ghost predicate Begun(link: Link, w: World, n: nat, session: string, c: Checkpoint) {
    n in w.runs && w.runs[n].client == link.client && w.runs[n].session == session && w.runs[n].phase == Opening(c)
  }

  /** The parts of the run, numbered from `n` on, have their checkpoints. */
  ghost predicate Started(link: Link, plan: map<string, Checkpoint>, w: World, sources: seq<Source>, n: nat) {
    forall i: nat :: i < |sources| && sources[i].sessionId in plan ==>
      Begun(link, w, n + i, sources[i].sessionId, plan[sources[i].sessionId])
  }

  lemma StartedRest(link: Link, plan: map<string, Checkpoint>, w: World, after: World, sources: seq<Source>, n: nat)
    requires sources != [] && Started(link, plan, w, sources, n) && forall m: nat :: m != n ==> SameRun(w, after, m)
    ensures Started(link, plan, after, sources[1..], n + 1)
  {
    var rest := sources[1..];
    forall i: nat | i < |rest| && rest[i].sessionId in plan
      ensures Begun(link, after, n + 1 + i, rest[i].sessionId, plan[rest[i].sessionId])
    {
      var j := i + 1;
      assert rest[i] == sources[j] && n + j == n + 1 + i;
      assert Begun(link, w, n + j, sources[j].sessionId, plan[sources[j].sessionId]) && SameRun(w, after, n + j);
    }
  }

  lemma {:induction false} SourcesAreExecution(link: Link, plan: map<string, Checkpoint>, w: World,
                                               sources: seq<Source>, n: nat)
    requires Started(link, plan, w, sources, n)
    ensures Execute(link.env, link.ring, w, SourcesSteps(link, plan, w.db, sources, n)).db
         == SyncSources(link, plan, w.db, sources).db
    decreases |sources|
  {
    hide SyncFile, FileSteps, Started;
    if sources != [] && sources[0].sessionId in plan {
      var session, contents := sources[0].sessionId, sources[0].contents;
      var first := FileSteps(link, n, session, contents, plan[session]);
      FirstStarted(link, plan, w, sources, n);
      SyncFileIsExecution(link, w, n, contents);
      var s := SyncFile(link, w.db, session, contents, plan[session]);
      var after := Execute(link.env, link.ring, w, first);
      if s.error.Some? {
        ConcatUnit(first);
      } else {
        FileStepsAreOwn(link, n, session, contents, plan[session]);
        forall m: nat | m != n ensures SameRun(w, after, m) {
          OthersUndisturbed(link.env, link.ring, w, first, n, m);
        }
        StartedRest(link, plan, w, after, sources, n);
        SourcesAreExecution(link, plan, after, sources[1..], n + 1);
        ExecuteConcat(link.env, link.ring, w, first, SourcesSteps(link, plan, after.db, sources[1..], n + 1));
      }
    }
  }

  lemma FirstStarted(link: Link, plan: map<string, Checkpoint>, w: World, sources: seq<Source>, n: nat)
    requires Started(link, plan, w, sources, n) && sources != [] && sources[0].sessionId in plan
    ensures Begun(link, w, n, sources[0].sessionId, plan[sources[0].sessionId])
  {
    var i: nat := 0;
    assert Begun(link, w, n + i, sources[i].sessionId, plan[sources[i].sessionId]);
  }

  // With the plan.

  function PlanSteps(link: Link, sources: seq<Source>, n: nat): seq<Step>
    decreases |sources|
  {
    if sources == [] then [] else [PlanRun(n, link.client, sources[0].sessionId)] + PlanSteps(link, sources[1..], n + 1)
  }

  lemma PlanBegins(link: Link, w: World, n: nat, session: string, c: Checkpoint)
    requires n !in w.runs && CheckpointOf(link.env, w.db, KeyIn(link, session)) == Ok(c)
    ensures var after := Next(link.env, link.ring, w, PlanRun(n, link.client, session));
      && after.db == w.db && Begun(link, after, n, session, c) && after.runs.Keys == w.runs.Keys + {n}
      && forall m: nat :: m != n ==> SameRun(w, after, m)
  {
    hide CheckpointOf, Generation;
  }

  lemma StartedCons(link: Link, plan: map<string, Checkpoint>, w: World, sources: seq<Source>, n: nat)
    requires sources != [] && sources[0].sessionId in plan
    requires Begun(link, w, n, sources[0].sessionId, plan[sources[0].sessionId])
    requires Started(link, plan, w, sources[1..], n + 1)
    ensures Started(link, plan, w, sources, n)
  {
    forall i: nat | i < |sources| && sources[i].sessionId in plan
      ensures Begun(link, w, n + i, sources[i].sessionId, plan[sources[i].sessionId])
    {
      if i > 0 {
        var j: nat := i - 1;
        assert sources[1..][j] == sources[i] && n + 1 + j == n + i;
      }
    }
  }

  lemma SameRunTransitive(a: World, b: World, c: World, m: nat)
    requires SameRun(a, b, m) && SameRun(b, c, m)
    ensures SameRun(a, c, m)
  {
  }

  /** Planning changes no table and starts one part of the run for each source. */
  lemma {:induction false} PlanStarts(link: Link, plan: map<string, Checkpoint>, w: World, sources: seq<Source>, n: nat)
    requires Planned(link, plan, w.db, sources) && forall m: nat :: m in w.runs ==> m < n
    ensures var after := Execute(link.env, link.ring, w, PlanSteps(link, sources, n));
      && after.db == w.db && Started(link, plan, after, sources, n)
      && forall m: nat :: m < n ==> SameRun(w, after, m)
    decreases |sources|
  {
    hide CheckpointOf, Next;
    if sources != [] {
      var session, rest := sources[0].sessionId, sources[1..];
      var steps, first := PlanSteps(link, sources, n), PlanRun(n, link.client, session);
      assert steps[0] == first && steps[1..] == PlanSteps(link, rest, n + 1);
      assert forall i :: 0 <= i < |rest| ==> rest[i] == sources[i + 1];
      var next := Next(link.env, link.ring, w, first);
      PlanBegins(link, w, n, session, plan[session]);
      hide Started, SameRun;
      PlanStarts(link, plan, next, rest, n + 1);
      var after := Execute(link.env, link.ring, next, PlanSteps(link, rest, n + 1));
      StillBegun(link, next, after, n, session, plan[session]);
      StartedCons(link, plan, after, sources, n);
      forall m: nat | m < n ensures SameRun(w, after, m) { SameRunTransitive(w, next, after, m); }
    }
  }

  lemma StillBegun(link: Link, w: World, after: World, n: nat, session: string, c: Checkpoint)
    requires Begun(link, w, n, session, c) && SameRun(w, after, n)
    ensures Begun(link, after, n, session, c)
  {
  }

  /** All the steps of a run whose plan is granted in `db`. */
  function RunSteps(link: Link, db: Db, sources: seq<Source>): seq<Step> {
    PlanSteps(link, sources, 0)
    + SourcesSteps(link, PlanOf(link.env, db, link.client.device, IdsOf(ManifestOf(sources))), db, sources, 0)
  }

  lemma GrantedIsPlanned(link: Link, db: Db, sources: seq<Source>)
    requires PlanAccepts(link.env, db, link.client.device, AGENT, ManifestOf(sources))
    ensures Planned(link, PlanOf(link.env, db, link.client.device, IdsOf(ManifestOf(sources))), db, sources)
  {
    hide CheckpointOf;
    var manifest := ManifestOf(sources);
    forall i | 0 <= i < |sources|
      ensures CheckpointOf(link.env, db, KeyIn(link, sources[i].sessionId)).Ok?
      ensures IdsOf(manifest)[i] == sources[i].sessionId
    {
      assert Plannable(link.env, db, link.client.device, manifest[i]);
    }
  }

  /** A whole run, whatever its sources and its network, does to the server what its protocol steps do. */
  lemma RunIsExecution(link: Link, db: Db, sources: seq<Source>)
    requires PlanAccepts(link.env, db, link.client.device, AGENT, ManifestOf(sources))
    ensures Execute(link.env, link.ring, World(db, map[], map[]), RunSteps(link, db, sources)).db
         == RunOutcome(link, db, sources).db
  {
    hide PlanAccepts, PlanOf, IdsOf, ManifestOf, Started, Planned, Execute, SyncSources, SourcesSteps, PlanSteps;
    var w := World(db, map[], map[]);
    var plan := PlanOf(link.env, db, link.client.device, IdsOf(ManifestOf(sources)));
    GrantedIsPlanned(link, db, sources);
    PlanStarts(link, plan, w, sources, 0);
    var planned := Execute(link.env, link.ring, w, PlanSteps(link, sources, 0));
    SourcesAreExecution(link, plan, planned, sources, 0);
    ExecuteConcat(link.env, link.ring, w, PlanSteps(link, sources, 0), SourcesSteps(link, plan, db, sources, 0));
  }

  /** The world in which the parts of a run have just been given the checkpoints of `plan`, however old it is. */
  function Resumed(link: Link, plan: map<string, Checkpoint>, db: Db, sources: seq<Source>): World {
    World(db, map[], map i: nat | i < |sources| && sources[i].sessionId in plan ::
      RunState(link.client, sources[i].sessionId, 0, Opening(plan[sources[i].sessionId])))
  }

  /** Every run keeps the invariant: with any plan, over any sources, whatever gets lost. */
  lemma RunKeepsInvariant(link: Link, plan: map<string, Checkpoint>, db: Db, sources: seq<Source>)
    requires Coherent(link.env.decoder) && Inv(link.env, link.ring, db)
    ensures Inv(link.env, link.ring, SyncSources(link, plan, db, sources).db)
  {
    hide Inv, Execute, SyncSources, SourcesSteps;
    var w := Resumed(link, plan, db, sources);
    SourcesAreExecution(link, plan, w, sources, 0);
    ExecutionKeepsInvariant(link.env, link.ring, w, SourcesSteps(link, plan, db, sources, 0));
  }
}
