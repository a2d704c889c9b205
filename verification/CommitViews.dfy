/** Commits whose read view is older than the moment they commit at, because they waited for a lock in
    between. Models the mixture of plain and locking reads in commitConfig, findConfig, lockCurrentConfig and
    configWarnings of internal/storage/mysqlstore/config_mutation.go under InnoDB's repeatable read. */
module CommitViews {
  import opened References
  import opened ConfigStore
  import opened StoreInvariants
  import opened StoreSteps

  /** The view shows an earlier moment: nothing in it was altered since. */
  ghost predicate SeenBefore(view: Db, db: Db) {
    && (forall id | id in view.revisions :: id in db.revisions && db.revisions[id] == view.revisions[id])
    && (forall k | k in view.environments :: k in db.environments && db.environments[k].id == view.environments[k].id)
  }

  /** The current revision of the request's Config was committed after the view was opened. */
  predicate Stale(view: Db, db: Db, request: ConfigCommit) {
    && Active(view, request.environmentKey) && request.configKey in db.configs
    && var binding := Binding(db.configs[request.configKey].id, view.environments[request.environmentKey].id);
       binding in db.states && RevisionId(binding, db.states[binding]) !in view.revisions
  }

  /** The database as it is now, but with the environment as available, and the Vault, as the view shows them. */
  function AsSeen(view: Db, db: Db, key: string): Db {
    db.(environments := if key in db.environments
                        then db.environments[key := db.environments[key].(archived := !Active(view, key))]
                        else db.environments,
        vaultItems := view.vaultItems, vaultRows := view.vaultRows)
  }

  /** Back to the environments and the Vault as they are now. */
  function Restored(now: Db, db: Db): Db {
    now.(environments := db.environments, vaultItems := db.vaultItems, vaultRows := db.vaultRows)
  }

  // ----- A late commit is a commit on the database as seen, or fails -----

  lemma {:induction false} SameWarnings(a: Db, b: Db, environmentId: string, references: seq<Reference>)
    requires a.vaultItems == b.vaultItems && a.vaultRows == b.vaultRows
    ensures Warnings(a, environmentId, references) == Warnings(b, environmentId, references)
  {
    if references != [] {
      SameWarnings(a, b, environmentId, references[1..]);
    }
  }

  lemma SeenCompares(view: Db, db: Db, request: ConfigCommit, document: Document, binding: Binding)
    requires SeenBefore(view, db) && Contiguous(db)
    ensures var seen := Compare(Seen(view, db), request, document, binding);
            if binding in db.states && RevisionId(binding, db.states[binding]) !in view.revisions then seen.Abandon?
            else seen == Compare(AsSeen(view, db, request.environmentKey), request, document, binding)
  {
    hide Warnings;
    SameWarnings(Seen(view, db), AsSeen(view, db, request.environmentKey), binding.environmentId, document.references);
  }

  /** The commit gets as far as reading the current revision, which its view does not show. */
  predicate Overtaken(codec: Codec, view: Db, db: Db, request: ConfigCommit, meta: Meta) {
    Stale(view, db, request) && Validate(codec, request).Valid? && !meta.createOnly
        && !db.configs[request.configKey].archived
  }

  lemma EnvironmentSeen(view: Db, db: Db, key: string)
    requires SeenBefore(view, db)
    ensures Active(AsSeen(view, db, key), key) <==> Active(view, key)
    ensures key in view.environments ==> AsSeen(view, db, key).environments[key].id == view.environments[key].id
  {
  }

  /** What the request leads to, given what the commit sees. */
  lemma SeenDecides(codec: Codec, view: Db, db: Db, request: ConfigCommit, meta: Meta, newId: string)
    requires SeenBefore(view, db) && Contiguous(db) && BindingsWell(db)
    ensures var validated := Validate(codec, request);
            Decide(Seen(view, db), request, meta, validated, newId)
            == if Overtaken(codec, view, db, request, meta) then Abandon
               else Decide(AsSeen(view, db, request.environmentKey), request, meta, validated, newId)
  {
    hide Validate, Compare, Contiguous, BindingsWell, NewConfigId, SeenBefore, AsSeen;
    EnvironmentSeen(view, db, request.environmentKey);
    SeenConfigs(view, db, request.environmentKey, newId);
    if Active(view, request.environmentKey) && Validate(codec, request).Valid? {
      var environmentId := view.environments[request.environmentKey].id;
      if request.configKey !in db.configs && NewConfigId(db, newId) {
        NewBinding(db, newId, environmentId);
      }
      var configId := if request.configKey in db.configs then db.configs[request.configKey].id else newId;
      SeenCompares(view, db, request, Validate(codec, request).document, Binding(configId, environmentId));
    }
  }

  lemma SeenConfigs(view: Db, db: Db, key: string, newId: string)
    ensures AsSeen(view, db, key).configs == db.configs && Seen(view, db).configs == db.configs
    ensures Seen(view, db).environments == view.environments
    ensures NewConfigId(Seen(view, db), newId) == NewConfigId(AsSeen(view, db, key), newId) == NewConfigId(db, newId)
  {
  }

  /** Carrying out a decision does not look at environments or at the Vault. */
  lemma SettleRestores(view: Db, db: Db, request: ConfigCommit, meta: Meta, validated: Validated, decision: Decision)
    requires decision.Advance? ==> validated.Valid?
    ensures var (now, reply) := Settle(AsSeen(view, db, request.environmentKey), request, meta, validated, decision);
            Settle(db, request, meta, validated, decision) == (Restored(now, db), reply)
  {
    hide DigestOf, Active;
  }

  /** A late commit fails without any effect exactly when it has been overtaken; otherwise it is the commit on
      the database as it is now with the environment and the Vault as they were when its view was opened. */
  lemma LateCommit(codec: Codec, view: Db, db: Db, request: ConfigCommit, meta: Meta, newId: string)
    requires StoreWell(db) && SeenBefore(view, db)
    ensures var (now, reply) := CommitConfig(codec, AsSeen(view, db, request.environmentKey), request, meta, newId);
            CommitAt(codec, view, db, request, meta, newId)
            == if && Overtaken(codec, view, db, request, meta) && request.operationId !in db.operations
                  && ValidOperationId(request.operationId) && ValidActor(request.actor)
               then (db, Failed(DatabaseError)) else (Restored(now, db), reply)
  {
    hide StoreWell, Validate, Decide, Settle, Overtaken, SeenBefore, ValidOperationId, ValidActor, DigestOf,
         Contiguous, BindingsWell,
         Active;
    Histories(db);
    SeenDecides(codec, view, db, request, meta, newId);
    var validated := Validate(codec, request);
    SettleRestores(view, db, request, meta, validated,
                   Decide(AsSeen(view, db, request.environmentKey), request, meta, validated, newId));
    SettleAbandons(db, request, meta, validated);
    assert Restored(AsSeen(view, db, request.environmentKey), db) == db;
  }

  lemma SettleAbandons(db: Db, request: ConfigCommit, meta: Meta, validated: Validated)
    ensures Settle(db, request, meta, validated, Abandon) == (db, Failed(DatabaseError))
  {
  }

  /** Nothing happened in between. */
  lemma PromptCommit(codec: Codec, db: Db, request: ConfigCommit, meta: Meta, newId: string)
    ensures CommitAt(codec, db, db, request, meta, newId) == CommitConfig(codec, db, request, meta, newId)
    ensures SeenBefore(db, db)
  {
    assert Seen(db, db) == db;
  }

  // ----- What it keeps -----

  lemma CommitEnvironments(codec: Codec, db: Db, request: ConfigCommit, meta: Meta, newId: string)
    ensures CommitConfig(codec, db, request, meta, newId).0.environments == db.environments
  {
    hide Validate, DigestOf, Decide, Begin, ValidOperationId, Settle, ReplayReply;
    var validated := Validate(codec, request);
    SettleEnvironments(db, request, meta, validated, Decide(db, request, meta, validated, newId));
  }

  lemma SettleEnvironments(db: Db, request: ConfigCommit, meta: Meta, validated: Validated, decision: Decision)
    requires decision.Advance? ==> validated.Valid?
    ensures Settle(db, request, meta, validated, decision).0.environments == db.environments
  {
    hide DigestOf, ConfigCompletion;
  }

  lemma AsSeenWell(view: Db, db: Db, key: string)
    requires StoreWell(db)
    ensures StoreWell(AsSeen(view, db, key))
  {
    hide StoreWell, Active;
    EnvironmentIdsDistinct(db);
    ArchivedConfigs(db, AsSeen(view, db, key));
  }

  lemma RestoredWell(view: Db, db: Db, key: string, now: Db)
    requires StoreWell(db) && StoreWell(now) && now.environments == AsSeen(view, db, key).environments
    ensures StoreWell(Restored(now, db))
  {
    hide StoreWell, Active;
    EnvironmentIdsDistinct(db);
    ArchivedConfigs(now, Restored(now, db));
  }

  /** A late commit keeps the invariants. */
  lemma CommitAtKeeps(codec: Codec, view: Db, db: Db, request: ConfigCommit, meta: Meta, newId: string)
    requires StoreWell(db) && MetaWell(request, meta) && SeenBefore(view, db)
    ensures StoreWell(CommitAt(codec, view, db, request, meta, newId).0)
  {
    hide StoreWell, MetaWell, SeenBefore, CommitAt, CommitConfig, Overtaken, AsSeen, Restored, ValidOperationId,
         ValidActor;
    var key := request.environmentKey;
    LateCommit(codec, view, db, request, meta, newId);
    AsSeenWell(view, db, key);
    CommitKeeps(codec, AsSeen(view, db, key), request, meta, newId);
    CommitEnvironments(codec, AsSeen(view, db, key), request, meta, newId);
    RestoredWell(view, db, key, CommitConfig(codec, AsSeen(view, db, key), request, meta, newId).0);
  }
}
