/** What a plan says about the archives, in every consistent state. */
module Manifests {
  import opened Basics
  import opened Hashing
  import opened Invariant
  import opened Plan
  import opened Queries
  import opened Store
  import opened Tables
  import opened Vault

  /** The server has a prefix state for the session, and no more archived than the client's file is long. */
  ghost predicate Continuable(env: Env, ring: Keyring, db: Db, device: string, s: LocalSession) {
    var k := Key(device, "codex", s.sessionId);
    && (k in db.sessions ==> db.sessions[k].hashState.Some?)
    && |ArchiveOf(env, ring, db, k)| <= s.size
  }

  /** At most ten thousand entries with safe, distinct ids and no negative size. */
  ghost predicate GoodManifest(env: Env, agent: string, manifest: seq<LocalSession>) {
    && agent == "codex" && |manifest| <= 10_000
    && (forall i :: 0 <= i < |manifest| ==> env.safeId(manifest[i].sessionId) && 0 <= manifest[i].size)
    && forall i, j :: 0 <= i < |manifest| && 0 <= j < |manifest| && manifest[i].sessionId == manifest[j].sessionId ==>
         i == j
  }

  /**
   * A plan is granted exactly for a good manifest whose sessions can all be continued; it then lists these sessions
   * and no others, each with the length and the digest of its archive.
   */
  lemma PlanContinuesArchives(env: Env, ring: Keyring, db: Db, device: string, agent: string,
                              manifest: seq<LocalSession>)
    requires Inv(env, ring, db)
    ensures ManifestOk(env, agent, manifest) <==> GoodManifest(env, agent, manifest)
    ensures PlanAccepts(env, db, device, agent, manifest) <==>
      && GoodManifest(env, agent, manifest)
      && forall i :: 0 <= i < |manifest| ==> Continuable(env, ring, db, device, manifest[i])
    ensures PlanAccepts(env, db, device, agent, manifest) ==>
      var plan := PlanOf(env, db, device, IdsOf(manifest));
      && (forall id :: id in plan <==> exists i :: 0 <= i < |manifest| && manifest[i].sessionId == id)
      && (forall id :: id in plan ==>
            var archive := ArchiveOf(env, ring, db, Key(device, "codex", id));
            plan[id] == Checkpoint(|archive|, Sha(env.hasher, archive)))
  {
    hide KeyOk, TablesOk, SessionIdsOk, CheckpointOf, Sha;
    forall id: string
      ensures var k := Key(device, "codex", id);
        var archive := ArchiveOf(env, ring, db, k);
        CheckpointOf(env, db, k)
        == if Ready(db, k) then Ok(Checkpoint(|archive|, Sha(env.hasher, archive))) else Err(NoPrefixState)
    {
      assert KeyOk(env, ring, db, Key(device, "codex", id));
      CheckpointIsPrefix(env, ring, db, Key(device, "codex", id));
    }
    assert forall i :: 0 <= i < |manifest| ==> IdsOf(manifest)[i] == manifest[i].sessionId;
    assert forall i :: 0 <= i < |manifest| ==>
      (Plannable(env, db, device, manifest[i]) <==> Continuable(env, ring, db, device, manifest[i]));
  }
}
