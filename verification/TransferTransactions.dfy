/** The transfer methods as the source runs them, with nothing happening in between. Each is proved against its
    function in Transfers, and says itself what a fresh transfer answers and leaves. */
module TransferTransactions {
  import opened Ordering
  import opened References
  import opened ConfigStore
  import opened CommitViews
  import opened StoreGuarantees
  import opened Transfers
  import opened TransferMeaning
  import opened CommitMeaning
  import StoreTransactions

  /** transferConfig, behind MergeConfig, ReplaceConfig and RestoreConfig. */
  method TransferConfig(store: StoreTransactions.Store, request: ConfigTransfer, action: string, merge: bool,
                        newId: string)
    returns (reply: Reply)
    modifies store
    ensures (store.db, reply) == Transfer(store.codec, old(store.db), request, action, merge, newId)
    ensures TransferTold(store.codec, old(store.db), store.db, request, action, merge, newId, reply)
  {
    TransferTells(store.codec, store.db, request, action, merge, newId);
    hide TransferTold, CommitAnswers, ValidOperationId, ValidActor, CommitConfig, CommitAt, RejectTransfer, InvalidKey,
         ReadRevision;
    if !ValidOperationId(request.operationId) || !ValidActor(request.actor) {
      return Failed(InvalidRequest);
    }
    var digest := TransferDigest(action, request);
    var replay := ReplayOperation(store.db, request.operationId, digest);
    if replay.Some? {
      return replay.value;
    }
    var meta := Meta(action, "config." + action + "d", None, Some(digest), None, false);
    var commit := TransferShell(request);
    var invalid := InvalidKey(request.sourceEnvironmentKey, request.sourceConfigKey, request.targetEnvironmentKey,
                              request.targetConfigKey);
    if invalid.Some? {
      reply := store.RejectConfigTransfer(commit, meta, invalid.value);
      return;
    }
    if request.sourceRevision == 0 {
      reply := store.RejectConfigTransfer(commit, meta, Failure("source_revision", "source_revision_required"));
      return;
    }
    var createTarget := action == "replace" && request.targetRevision == 0 && request.expectedTargetRevision == 0;
    if !createTarget && (request.targetRevision == 0 || request.expectedTargetRevision == 0) {
      reply := store.RejectConfigTransfer(commit, meta, Failure("target_revision", "target_revision_required"));
      return;
    }
    var source := ReadRevision(store.db, request.sourceEnvironmentKey, request.sourceConfigKey, request.sourceRevision);
    if source.None? {
      reply := store.RejectConfigTransfer(commit, meta, Failure("source_revision", "source_revision_unavailable"));
      return;
    }
    reply := TransferFrom(store, request, action, merge, commit, meta, source.value, newId);
  }

  /** The second half of transferConfig, once its source is read. */
  method TransferFrom(store: StoreTransactions.Store, request: ConfigTransfer, action: string, merge: bool,
                      shell: ConfigCommit, plain: Meta, source: Snapshot, newId: string)
    returns (reply: Reply)
    requires shell == TransferShell(request) && plain == TransferMeta(request, action)
    requires ValidOperationId(request.operationId) && ValidActor(request.actor)
    requires ReplayOperation(store.db, request.operationId, TransferDigest(action, request)).None?
    requires TransferPreconditions(request, action).None?
    requires ReadRevision(store.db, request.sourceEnvironmentKey, request.sourceConfigKey, request.sourceRevision)
             == Some(source)
    modifies store
    ensures (store.db, reply) == Transfer(store.codec, old(store.db), request, action, merge, newId)
  {
    hide CommitAnswers, ValidOperationId, ValidActor, CommitConfig, CommitAt, RejectTransfer, TransferPreconditions,
         ReadRevision, ReplayOperation;
    var createTarget := action == "replace" && request.targetRevision == 0 && request.expectedTargetRevision == 0;
    var commit, meta := shell, plain;
    meta := meta.(source := Some(Source(source.configId, source.environmentId, request.sourceRevision)));
    commit := commit.(configName := source.displayName);
    commit := commit.(format := source.format);
    commit := commit.(content := source.content);
    var targetActive := true;
    if !createTarget {
      var target := ReadRevision(store.db, request.targetEnvironmentKey, request.targetConfigKey,
                                 request.targetRevision);
      if target.None? {
        SameRejection(store.db, shell, plain, commit, meta, Failure("target_revision", "target_revision_unavailable"));
        reply := store.RejectConfigTransfer(commit, meta, Failure("target_revision", "target_revision_unavailable"));
        return;
      }
      targetActive := target.value.active;
      if merge {
        if target.value.format != source.format {
          SameRejection(store.db, shell, plain, commit, meta, Failure("target_revision", "config_format_mismatch"));
          reply := store.RejectConfigTransfer(commit, meta, Failure("target_revision", "config_format_mismatch"));
          return;
        }
        var merged := store.codec.merge(source.format, source.content, target.value.content);
        if merged.None? {
          SameRejection(store.db, shell, plain, commit, meta, Failure("content", "config_document_invalid"));
          reply := store.RejectConfigTransfer(commit, meta, Failure("content", "config_document_invalid"));
          return;
        }
        commit := commit.(content := merged.value.content);
      }
      var legacy := CommitDigest(commit, meta.action, meta.source, meta.createOnly);
      meta := meta.(legacyDigest := Some(legacy));
      var replay := ReplayOperation(store.db, request.operationId, legacy);
      if replay.Some? {
        return replay.value;
      }
    }
    if !source.active {
      SameRejection(store.db, shell, plain, commit, meta, Failure("source_revision", "source_revision_unavailable"));
      reply := store.RejectConfigTransfer(commit, meta, Failure("source_revision", "source_revision_unavailable"));
      return;
    }
    if !targetActive {
      SameRejection(store.db, shell, plain, commit, meta, Failure("target_revision", "target_revision_unavailable"));
      reply := store.RejectConfigTransfer(commit, meta, Failure("target_revision", "target_revision_unavailable"));
      return;
    }
    PromptCommit(store.codec, store.db, commit, meta, newId);
    reply := store.CommitConfig(commit, meta, newId);
  }

  /** A rejection does not depend on what was read before it. */
  lemma SameRejection(db: Db, c: ConfigCommit, m: Meta, d: ConfigCommit, n: Meta, failure: Failure)
    requires c.operationId == d.operationId && c.actor == d.actor && c.environmentKey == d.environmentKey
    requires c.configKey == d.configKey
    requires m.action == n.action && m.requestDigest.Some? && m.requestDigest == n.requestDigest
    ensures RejectTransfer(db, c, m, failure) == RejectTransfer(db, d, n, failure)
  {
  }

  /** RestoreConfig: a transfer of an earlier revision of the same Config. */
  method RestoreConfig(store: StoreTransactions.Store, operationId: string, actor: Actor, environmentKey: string,
                       configKey: string,
                       sourceRevision: nat, expectedRevision: nat, newId: string) returns (reply: Reply)
    modifies store
    ensures (store.db, reply) ==
            Transfer(store.codec, old(store.db),
                     ConfigTransfer(operationId, actor, environmentKey, configKey, sourceRevision, environmentKey,
                                    configKey,
                                    expectedRevision, expectedRevision), "restore", false, newId)
    ensures RestoreTold(store.codec, old(store.db), store.db, operationId, actor, environmentKey, configKey,
                        sourceRevision, expectedRevision, newId, reply)
  {
    RestoreTells(store.codec, store.db, operationId, actor, environmentKey, configKey, sourceRevision,
                 expectedRevision, newId);
    hide Transfer, TransferTold, RestoreTold;
    var request := ConfigTransfer(operationId, actor, environmentKey, configKey, sourceRevision, environmentKey,
                                  configKey,
                                  expectedRevision, expectedRevision);
    reply := TransferConfig(store, request, "restore", false, newId);
  }

  /** CloneConfig. */
  method CloneConfig(store: StoreTransactions.Store, request: ConfigClone, newId: string) returns (reply: Reply)
    modifies store
    ensures (store.db, reply) == Clone(store.codec, old(store.db), request, newId)
    ensures CloneTold(store.codec, old(store.db), store.db, request, newId, reply)
  {
    CloneTells(store.codec, store.db, request, newId);
    hide CloneTold, CommitAnswers, ValidOperationId, CommitConfig, CommitAt, RejectTransfer, InvalidKey, ReadRevision,
         CurrentRevision;
    if !ValidOperationId(request.operationId) || !ValidActor(request.actor) {
      return Failed(InvalidRequest);
    }
    var digest := CloneDigest(request);
    var replay := ReplayOperation(store.db, request.operationId, digest);
    if replay.Some? {
      return replay.value;
    }
    var meta := Meta("clone", "config.cloned", None, Some(digest), None, true);
    var commit := CloneShell(request);
    var invalid := InvalidKey(request.sourceEnvironmentKey, request.sourceConfigKey, request.targetEnvironmentKey,
                              request.targetConfigKey);
    if invalid.Some? {
      reply := store.RejectConfigTransfer(commit, meta, invalid.value);
      return;
    }
    var revision := request.sourceRevision;
    if revision == 0 {
      revision := CurrentRevision(store.db, request.sourceEnvironmentKey, request.sourceConfigKey);
    }
    var source := ReadActiveRevision(store.db, request.sourceEnvironmentKey, request.sourceConfigKey, revision);
    if source.None? {
      reply := store.RejectConfigTransfer(commit, meta, Failure("source_revision", "source_revision_unavailable"));
      return;
    }
    meta := meta.(source := Some(Source(source.value.configId, source.value.environmentId, revision)));
    commit := commit.(format := source.value.format);
    commit := commit.(content := source.value.content);
    if commit.configName == "" {
      commit := commit.(configName := source.value.displayName);
    }
    PromptCommit(store.codec, store.db, commit, meta, newId);
    reply := store.CommitConfig(commit, meta, newId);
  }
}
