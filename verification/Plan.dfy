/** The sync plan: which offset and prefix digest the server reports for each local session. */
module Plan {
  import opened Basics
  import opened Server
  import opened Store
  import opened Tables

  datatype LocalSession = LocalSession(sessionId: string, size: int)

  datatype PlanError = BadManifest | NoCheckpoint | SourceTruncated(sessionId: string)

  /** A manifest lists at most so many distinct, well-formed sessions. */
  ghost predicate ManifestOk(env: Env, agent: string, manifest: seq<LocalSession>) {
    && agent == AGENT && |manifest| <= MAX_MANIFEST_SESSIONS
    && (forall i :: 0 <= i < |manifest| ==> env.safeId(manifest[i].sessionId) && manifest[i].size >= 0)
    && (forall i, j :: 0 <= i < j < |manifest| ==> manifest[i].sessionId != manifest[j].sessionId)
  }

  /** The checkpoint of one entry, and that the local file is not shorter than what the server has. */
  ghost predicate Plannable(env: Env, db: Db, device: string, s: LocalSession) {
    var c := CheckpointOf(env, db, Key(device, AGENT, s.sessionId));
    c.Ok? && c.value.nextOffset <= s.size
  }

  /** The manifest is well formed and every entry has a checkpoint within its file. */
  ghost predicate PlanAccepts(env: Env, db: Db, device: string, agent: string, manifest: seq<LocalSession>) {
    ManifestOk(env, agent, manifest) && forall i :: 0 <= i < |manifest| ==> Plannable(env, db, device, manifest[i])
  }

  /** What a refused plan says about the manifest. */
  ghost predicate ExplainsPlan(env: Env, db: Db, device: string, agent: string, manifest: seq<LocalSession>,
                               e: PlanError) {
    match e
    case BadManifest => !ManifestOk(env, agent, manifest)
    case NoCheckpoint =>
      ManifestOk(env, agent, manifest) && exists i :: 0 <= i < |manifest| && NotReady(env, db, device, manifest[i])
    case SourceTruncated(id) =>
      ManifestOk(env, agent, manifest) && exists i :: 0 <= i < |manifest| && Shrunk(env, db, device, manifest[i], id)
  }

  ghost predicate NotReady(env: Env, db: Db, device: string, s: LocalSession) {
    CheckpointOf(env, db, Key(device, AGENT, s.sessionId)).Err?
  }

  ghost predicate Shrunk(env: Env, db: Db, device: string, s: LocalSession, id: string) {
    var c := CheckpointOf(env, db, Key(device, AGENT, id));
    s.sessionId == id && c.Ok? && s.size < c.value.nextOffset
  }

  function IdsOf(manifest: seq<LocalSession>): seq<string> {
    seq(|manifest|, i requires 0 <= i < |manifest| => manifest[i].sessionId)
  }

  /** The checkpoints of the listed sessions. */
  function PlanOf(env: Env, db: Db, device: string, ids: seq<string>): map<string, Checkpoint> {
    map id | id in ids && CheckpointOf(env, db, Key(device, AGENT, id)).Ok? ::
      CheckpointOf(env, db, Key(device, AGENT, id)).value
  }

  lemma PlanIs(env: Env, db: Db, device: string, ids: seq<string>, found: map<string, Checkpoint>)
    requires forall id :: id in found <==> id in ids
    requires forall id :: id in ids ==> CheckpointOf(env, db, Key(device, AGENT, id)) == Ok(found[id])
    ensures found == PlanOf(env, db, device, ids)
  {
    hide CheckpointOf;
  }

  lemma BadExplains(env: Env, db: Db, device: string, agent: string, manifest: seq<LocalSession>)
    ensures !ManifestOk(env, agent, manifest) ==> ExplainsPlan(env, db, device, agent, manifest, BadManifest)
  {
  }

  lemma NoCheckpointExplains(env: Env, db: Db, device: string, agent: string, manifest: seq<LocalSession>,
                             ids: seq<string>)
    requires |ids| == |manifest| && forall i :: 0 <= i < |ids| ==> ids[i] == manifest[i].sessionId
    requires exists id :: id in ids && CheckpointOf(env, db, Key(device, agent, id)).Err?
    requires ManifestOk(env, agent, manifest)
    ensures ExplainsPlan(env, db, device, agent, manifest, NoCheckpoint)
  {
    hide CheckpointOf;
    var id :| id in ids && CheckpointOf(env, db, Key(device, agent, id)).Err?;
    var i :| 0 <= i < |ids| && ids[i] == id;
    assert NotReady(env, db, device, manifest[i]);
  }

  lemma TruncatedExplains(env: Env, db: Db, device: string, agent: string, manifest: seq<LocalSession>,
                          ids: seq<string>, id: string)
    requires |ids| == |manifest| && forall i :: 0 <= i < |ids| ==> ids[i] == manifest[i].sessionId
    requires id in ids && ManifestOk(env, agent, manifest) && CheckpointOf(env, db, Key(device, agent, id)).Ok?
    requires forall i :: 0 <= i < |ids| && ids[i] == id ==>
      manifest[i].size < CheckpointOf(env, db, Key(device, agent, id)).value.nextOffset
    ensures ExplainsPlan(env, db, device, agent, manifest, SourceTruncated(id))
  {
    hide CheckpointOf;
    var i :| 0 <= i < |ids| && ids[i] == id;
    assert Shrunk(env, db, device, manifest[i], id);
  }

  /** `handleSyncPlan`: one checkpoint per session of the manifest, or a refusal of the whole manifest. */
  method HandleSyncPlan(server: Server, device: string, agent: string, manifest: seq<LocalSession>)
    returns (r: Result<map<string, Checkpoint>, PlanError>)
    ensures r.Ok? <==> PlanAccepts(server.store.env, server.store.Snapshot(), device, agent, manifest)
    ensures r.Ok? ==> r.value == PlanOf(server.store.env, server.store.Snapshot(), device, IdsOf(manifest))
    ensures r.Err? ==> ExplainsPlan(server.store.env, server.store.Snapshot(), device, agent, manifest, r.error)
  {
    hide CheckpointOf, PlanOf, ExplainsPlan;
    BadExplains(server.store.env, server.store.Snapshot(), device, agent, manifest);
    if agent != AGENT || |manifest| > MAX_MANIFEST_SESSIONS {
      return Err(BadManifest);
    }
    var ids: seq<string> := [];
    var sizes: map<string, int> := map[];
    for i := 0 to |manifest|
      invariant |ids| == i && forall j :: 0 <= j < i ==> ids[j] == manifest[j].sessionId
      invariant forall id :: id in sizes <==> id in ids
      invariant forall j :: 0 <= j < i ==> sizes[ids[j]] == manifest[j].size
      invariant forall j :: 0 <= j < i ==> server.store.env.safeId(ids[j]) && manifest[j].size >= 0
      invariant forall j, l :: 0 <= j < l < i ==> ids[j] != ids[l]
    {
      var session := manifest[i];
      if !server.store.env.safeId(session.sessionId) || session.size < 0 {
        return Err(BadManifest);
      }
      if session.sessionId in sizes {
        assert exists j :: 0 <= j < i && ids[j] == session.sessionId;
        return Err(BadManifest);
      }
      ids := ids + [session.sessionId];
      sizes := sizes[session.sessionId := session.size];
    }
    var found := server.store.Checkpoints(device, agent, ids);
    if found.Err? {
      NoCheckpointExplains(server.store.env, server.store.Snapshot(), device, agent, manifest, ids);
      return Err(NoCheckpoint);
    }
    PlanIs(server.store.env, server.store.Snapshot(), device, ids, found.value);
    assert ids == IdsOf(manifest);
    var todo := found.value.Keys;
    var response: map<string, Checkpoint> := map[];
    while todo != {}
      invariant todo <= found.value.Keys
      invariant forall id :: id in response <==> id in found.value && id !in todo
      invariant forall id :: id in response ==> response[id] == found.value[id] && response[id].nextOffset <= sizes[id]
      decreases todo
    {
      var id :| id in todo;
      var checkpoint := found.value[id];
      if checkpoint.nextOffset > sizes[id] {
        TruncatedExplains(server.store.env, server.store.Snapshot(), device, agent, manifest, ids, id);
        return Err(SourceTruncated(id));
      }
      response := response[id := checkpoint];
      todo := todo - {id};
    }
    assert response == found.value;
    return Ok(response);
  }
}
