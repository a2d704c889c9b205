/** Each API call keeps the invariants of the store and only ever adds to what is recorded. */
module StoreSteps {
  import opened Ordering
  import opened References
  import opened Encoding
  import opened ConfigStore
  import opened StoreInvariants

  /** The digest belongs to the operation of a Config request, as every caller of commitConfig arranges. */
  predicate MetaWell(request: ConfigCommit, meta: Meta) {
    var digest := DigestOf(request, meta);
    && OperationIdOf(digest) == request.operationId && !digest.LifecycleDigest? && !digest.EnvironmentDigest?
    && (meta.legacyDigest.Some? ==> meta.legacyDigest.value.CommitDigest?)
  }

  // ----- Decisions -----

  lemma ValidKeys(codec: Codec, request: ConfigCommit)
    requires Validate(codec, request).Valid?
    ensures ValidResourceKey(request.environmentKey) && ValidResourceKey(request.configKey)
    ensures codec.canonicalize(request.format, request.content) == Some(Validate(codec, request).document)
  {
    hide ValidResourceKey;
  }

  /** Every rejection carries an outcome of the class of its reason. */
  lemma RejectionsClassified(codec: Codec, db: Db, request: ConfigCommit, meta: Meta, newId: string)
    ensures var decision := Decide(db, request, meta, Validate(codec, request), newId);
            decision.Reject? ==> (decision.outcome == Conflict || decision.outcome == ValidationFailed)
                                 && decision.failure.Class() == OutcomeError(decision.outcome)
                                 && (decision.outcome == Conflict ==> Validate(codec, request).Valid?)
  {
    hide ValidResourceKey, CurrentOf, Warnings;
  }

  /** A new Config has no revisions yet. */
  lemma NewBinding(db: Db, newId: string, environmentId: string)
    requires BindingsWell(db) && NewConfigId(db, newId)
    ensures Binding(newId, environmentId) !in db.states
  {
    hide HasEnvironment, HasState;
    assert !HasConfig(db, newId);
  }

  lemma CurrentKnown(db: Db, binding: Binding)
    requires Contiguous(db)
    ensures !CurrentOf(db, binding).Broken?
    ensures RevisionOf(CurrentOf(db, binding)) == if binding in db.states then db.states[binding] else 0
    ensures CurrentOf(db, binding).At? <==> binding in db.states
    ensures RevisionOf(CurrentOf(db, binding)) < UINT64_LIMIT
  {
  }

  /** The compare-and-swap lets through only requests for the revision after the current one. */
  lemma CompareAdvances(db: Db, request: ConfigCommit, meta: Meta, document: Document, binding: Binding)
    requires Contiguous(db) && Compare(db, request, document, binding).Advance?
    ensures var decision := Compare(db, request, document, binding);
            && decision.binding == binding
            && decision.revision == request.expectedRevision + 1
            && decision.revision == (if binding in db.states then db.states[binding] else 0) + 1 < UINT64_LIMIT
            && ChangesDocument(db, binding, decision.revision, NewRevision(request, meta, document))
  {
    hide Contiguous, Warnings;
    CurrentKnown(db, binding);
  }

  lemma DecideAdvances(codec: Codec, db: Db, request: ConfigCommit, meta: Meta, newId: string)
    requires BindingsWell(db) && Contiguous(db)
    requires Decide(db, request, meta, Validate(codec, request), newId).Advance?
    ensures var validated, decision := Validate(codec, request),
            Decide(db, request, meta, Validate(codec, request), newId);
            && validated.Valid?
            && Writable(db, request, decision.binding, decision.revision)
            && ChangesDocument(db, decision.binding, decision.revision, NewRevision(request, meta, validated.document))
  {
    hide Validate, Compare, BindingsWell, Contiguous, NewConfigId, ChangesDocument, NewRevision;
    var document := Validate(codec, request).document;
    var environmentId := db.environments[request.environmentKey].id;
    assert HasEnvironment(db, environmentId);
    var configId := if request.configKey in db.configs then db.configs[request.configKey].id else newId;
    CompareAdvances(db, request, meta, document, Binding(configId, environmentId));
  }

  /** A request is kept unchanged only if it expected the current revision and repeats its document. */
  lemma DecideKeeps(codec: Codec, db: Db, request: ConfigCommit, meta: Meta, newId: string)
    requires Contiguous(db) && BindingsWell(db)
    requires Decide(db, request, meta, Validate(codec, request), newId).Keep?
    ensures var validated, decision := Validate(codec, request),
            Decide(db, request, meta, Validate(codec, request), newId);
            && validated.Valid? && decision.revision == request.expectedRevision > 0
            && request.configKey in db.configs && Active(db, request.environmentKey)
            && var binding := Binding(db.configs[request.configKey].id, db.environments[request.environmentKey].id);
               binding in db.states && db.states[binding] == decision.revision
               && RevisionId(binding, decision.revision) in db.revisions
               && Known(db, binding, decision.revision).format == request.format
               && Known(db, binding, decision.revision).content == validated.document.content
  {
    hide Validate, BindingsWell, Contiguous, NewConfigId, Warnings;
    var environmentId := db.environments[request.environmentKey].id;
    var configId := if request.configKey in db.configs then db.configs[request.configKey].id else newId;
    CurrentKnown(db, Binding(configId, environmentId));
    if request.configKey !in db.configs {
      NewBinding(db, newId, environmentId);
    }
    PositiveStates(db, Binding(configId, environmentId));
  }

  lemma PositiveStates(db: Db, binding: Binding)
    requires Contiguous(db)
    ensures binding in db.states ==> db.states[binding] > 0
  {
  }

  // ----- Steps keep the invariants -----

  lemma RejectKeeps(db: Db, request: ConfigCommit, meta: Meta, outcome: Outcome, failure: Failure)
    requires StoreWell(db) && MetaWell(request, meta) && request.operationId !in db.operations
    requires outcome == Conflict || outcome == ValidationFailed
    requires failure.Class() == OutcomeError(outcome)
    requires outcome == Conflict ==> ValidResourceKey(request.environmentKey) && ValidResourceKey(request.configKey)
    ensures StoreWell(RejectConfig(db, request, meta, DigestOf(request, meta), outcome, failure).0)
  {
    hide StoreWell, ValidResourceKey, Finish, DigestOf;
    var response := ConfigResult(outcome, 0, [], Some(failure));
    FinishKeeps(db, ConfigCompletion(request, meta, DigestOf(request, meta), response,
                                     EventName(meta, OutcomeText(outcome)), false));
  }

  lemma KeepCompletion(request: ConfigCommit, meta: Meta, revision: nat, warnings: seq<Warning>)
    requires MetaWell(request, meta) && revision > 0
    requires ValidResourceKey(request.environmentKey) && ValidResourceKey(request.configKey)
    ensures var response := ConfigResult(NoChange, revision, warnings, None);
            CompletionWell(ConfigCompletion(request, meta, DigestOf(request, meta), response,
                                            EventName(meta, "no_change"), false))
  {
    hide ValidResourceKey, DigestOf;
  }

  lemma KeepKeeps(codec: Codec, db: Db, request: ConfigCommit, meta: Meta, newId: string)
    requires StoreWell(db) && MetaWell(request, meta) && request.operationId !in db.operations
    requires Decide(db, request, meta, Validate(codec, request), newId).Keep?
    ensures var validated := Validate(codec, request);
            StoreWell(Settle(db, request, meta, validated, Decide(db, request, meta, validated, newId)).0)
  {
    hide StoreWell, ValidResourceKey, Finish, DigestOf, Validate, Decide, HistoryWell, MetaWell, CompletionWell,
         BindingsWell, Contiguous;
    var decision := Decide(db, request, meta, Validate(codec, request), newId);
    Histories(db);
    DecideKeeps(codec, db, request, meta, newId);
    ValidKeys(codec, request);
    var response := ConfigResult(NoChange, decision.revision, decision.warnings, None);
    KeepCompletion(request, meta, decision.revision, decision.warnings);
    FinishKeeps(db, ConfigCompletion(request, meta, DigestOf(request, meta), response, EventName(meta, "no_change"),
                                     false));
  }

  lemma Histories(db: Db)
    requires StoreWell(db)
    ensures Contiguous(db) && BindingsWell(db) && NeighboursDiffer(db) && Traced(db)
  {
    hide Contiguous, BindingsWell, NeighboursDiffer, Traced;
  }

  lemma AdvanceKeeps(codec: Codec, db: Db, request: ConfigCommit, meta: Meta, newId: string)
    requires StoreWell(db) && MetaWell(request, meta) && request.operationId !in db.operations
    requires Decide(db, request, meta, Validate(codec, request), newId).Advance?
    ensures var validated, decision := Validate(codec, request),
            Decide(db, request, meta, Validate(codec, request), newId);
            validated.Valid? && StoreWell(Settle(db, request, meta, validated, decision).0)
  {
    hide StoreWell, ValidResourceKey, Finish, DigestOf, Validate, Decide, HistoryWell, Writable, ChangesDocument,
         WriteRevision,
         NewRevision, Contiguous, BindingsWell;
    Histories(db);
    DecideAdvances(codec, db, request, meta, newId);
    ValidKeys(codec, request);
    var decision := Decide(db, request, meta, Validate(codec, request), newId);
    var document := Validate(codec, request).document;
    var response := ConfigResult(Success, decision.revision, decision.warnings, None);
    Positive(db, request, decision.binding, decision.revision);
    WriteKeeps(db, request, meta, document, decision.binding, decision.revision,
               ConfigCompletion(request, meta, DigestOf(request, meta), response,
                                SuccessEvent(meta, decision.revision), true));
  }

  lemma Positive(db: Db, request: ConfigCommit, binding: Binding, revision: nat)
    requires Writable(db, request, binding, revision)
    ensures revision > 0
  {
    hide HasEnvironment, NewConfigId;
  }

  /** commitConfig keeps the invariants. */
  lemma CommitKeeps(codec: Codec, db: Db, request: ConfigCommit, meta: Meta, newId: string)
    requires StoreWell(db) && MetaWell(request, meta)
    ensures StoreWell(CommitConfig(codec, db, request, meta, newId).0)
  {
    hide StoreWell, MetaWell, Validate, Decide, DigestOf, RejectConfig, Finish, WriteRevision, ValidOperationId;
    if Begin(db, request.operationId, DigestOf(request, meta), meta.legacyDigest).Fresh? {
      var decision := Decide(db, request, meta, Validate(codec, request), newId);
      match decision
      case Reject(outcome, failure) =>
        RejectionsClassified(codec, db, request, meta, newId);
        if outcome == Conflict {
          ValidKeys(codec, request);
        }
        RejectKeeps(db, request, meta, outcome, failure);
      case Keep(_, _) => KeepKeeps(codec, db, request, meta, newId);
      case Advance(_, _, _) => AdvanceKeeps(codec, db, request, meta, newId);
      case Abandon =>
    }
  }

  lemma RejectTransferKeeps(db: Db, request: ConfigCommit, meta: Meta, failure: Failure)
    requires StoreWell(db) && MetaWell(request, meta) && failure.Class() == ErrValidation
    ensures StoreWell(RejectTransfer(db, request, meta, failure).0)
  {
    hide StoreWell, MetaWell, DigestOf, RejectConfig, Finish;
    if Begin(db, request.operationId, DigestOf(request, meta), None).Fresh? {
      RejectKeeps(db, request, meta, ValidationFailed, failure);
    }
  }

  lemma ArchivedConfigs(db: Db, now: Db)
    requires StoreWell(db) && SameButArchived(db, now)
    ensures StoreWell(now)
  {
    hide Contiguous, NeighboursDiffer, OperationsWell, OutboxWell, TracedRevision;
    OperationsOnly(db, now);
    ArchivedBindings(db, now);
    SameRevisions(db, now);
    forall id | id in now.revisions ensures TracedRevision(now, id) {
      assert TracedRevision(db, id);
      SameTrace(db, now, id);
    }
  }

  lemma SameTrace(db: Db, now: Db, id: RevisionId)
    requires TracedRevision(db, id) && now.revisions == db.revisions && now.operations == db.operations
    ensures TracedRevision(now, id)
  {
  }

  lemma SameRevisions(db: Db, now: Db)
    requires Contiguous(db) && NeighboursDiffer(db) && now.states == db.states && now.revisions == db.revisions
    ensures Contiguous(now) && NeighboursDiffer(now)
  {
    hide SameDocument;
  }

  /** Only names and archive flags, or new environments, set the two databases apart. */
  ghost predicate SameButArchived(db: Db, now: Db) {
    && now.operations == db.operations && now.outbox == db.outbox
    && now.states == db.states && now.revisions == db.revisions
    && now.configs.Keys == db.configs.Keys && (forall k | k in db.configs :: now.configs[k].id == db.configs[k].id)
    && (forall k | k in db.environments :: k in now.environments && now.environments[k].id == db.environments[k].id)
    && (forall k, l | k in now.environments && l in now.environments
        && now.environments[k].id == now.environments[l].id :: k == l)
  }

  lemma ArchivedBindings(db: Db, now: Db)
    requires BindingsWell(db) && SameButArchived(db, now)
    ensures BindingsWell(now)
  {
    forall b | b in now.states ensures HasConfig(now, b.configId) && HasEnvironment(now, b.environmentId) {
      assert HasConfig(db, b.configId) && HasEnvironment(db, b.environmentId);
      var k :| k in db.configs && db.configs[k].id == b.configId;
      assert k in now.configs && now.configs[k].id == b.configId;
      var e :| e in db.environments && db.environments[e].id == b.environmentId;
      assert e in now.environments && now.environments[e].id == b.environmentId;
    }
    forall key | key in now.configs ensures HasState(now, now.configs[key].id) {
      assert HasState(db, db.configs[key].id);
    }
  }

  lemma ArchiveKeeps(db: Db, request: LifecycleChange)
    requires StoreWell(db) && request.operationId !in db.operations && request.key in db.configs
    requires ValidResourceKey(request.key) && (request.action == "archive" || request.action == "unarchive")
    ensures StoreWell(FreshLifecycle(db, request).0)
  {
    hide StoreWell, Finish, ValidResourceKey, Active;
    var archive := request.action == "archive";
    var changes := db.configs[request.key].archived != archive;
    var response := LifecycleResult(if changes then Success else NoChange, request.key, archive);
    var changed := db.(configs := db.configs[request.key := db.configs[request.key].(archived := archive)]);
    EnvironmentIdsDistinct(db);
    ArchivedConfigs(db, changed);
    FinishKeeps(changed,
                LifecycleCompletion(request, response, if archive then "config.archived" else "config.unarchived",
                                    changes));
  }

  /** ApplyConfigLifecycleChange keeps the invariants. */
  lemma LifecycleKeeps(db: Db, request: LifecycleChange)
    requires StoreWell(db)
    ensures StoreWell(ChangeLifecycle(db, request).0)
  {
    hide StoreWell, Finish, ValidResourceKey, ValidOperationId;
    if Begin(db, request.operationId, LifecycleDigest(request), None).Fresh? {
      if !ValidResourceKey(request.key) || (request.action != "archive" && request.action != "unarchive") {
        FailLifecycleKeeps(db, request, "config.validation_failed");
      } else if request.key !in db.configs {
        FailLifecycleKeeps(db, request, "config.not_found");
      } else {
        ArchiveKeeps(db, request);
      }
    }
  }

  lemma EnvironmentIdsDistinct(db: Db)
    requires StoreWell(db)
    ensures forall k, l | k in db.environments && l in db.environments
            && db.environments[k].id == db.environments[l].id :: k == l
  {
    hide Contiguous, NeighboursDiffer, OperationsWell, OutboxWell, Traced;
  }

  lemma FailLifecycleKeeps(db: Db, request: LifecycleChange, eventType: string)
    requires StoreWell(db) && request.operationId !in db.operations
    ensures StoreWell(FailLifecycle(db, request, eventType).0)
  {
    hide StoreWell, Finish;
    FinishKeeps(db, LifecycleCompletion(request, LifecycleResult(ValidationFailed, request.key, false), eventType,
                                        false));
  }

  lemma FailEnvironmentKeeps(db: Db, request: EnvironmentChange, outcome: Outcome, eventType: string)
    requires StoreWell(db) && request.operationId !in db.operations
    requires outcome == ValidationFailed || (outcome == Conflict && ValidResourceKey(request.key))
    ensures StoreWell(FailEnvironment(db, request, outcome, eventType).0)
  {
    hide StoreWell, Finish, ValidResourceKey;
    FinishKeeps(db, EnvironmentCompletion(request, EnvironmentResult(outcome, request.key, "", false), eventType,
                                          false));
  }

  lemma SetEnvironmentKeeps(db: Db, request: EnvironmentChange, env: Environment, outcome: Outcome)
    requires StoreWell(db) && request.operationId !in db.operations && ValidResourceKey(request.key)
    requires outcome == Success || outcome == NoChange
    requires if request.key in db.environments then env.id == db.environments[request.key].id
             else NewEnvironmentId(db, env.id)
    ensures StoreWell(SetEnvironment(db, request, env, outcome).0)
  {
    hide StoreWell, Finish, ValidResourceKey;
    var changed := db.(environments := db.environments[request.key := env]);
    EnvironmentIdsDistinct(db);
    ArchivedConfigs(db, changed);
    FinishKeeps(changed,
                EnvironmentCompletion(request, EnvironmentResult(outcome, request.key, env.name, env.archived),
                                      "environment." + request.action, outcome == Success));
  }

  /** ApplyEnvironmentChange keeps the invariants. */
  lemma EnvironmentKeeps(db: Db, request: EnvironmentChange, newId: string)
    requires StoreWell(db)
    ensures StoreWell(ChangeEnvironment(db, request, newId).0)
  {
    hide StoreWell, Finish, ValidResourceKey, ValidOperationId, FailEnvironment, SetEnvironment, NewEnvironmentId;
    if Begin(db, request.operationId, EnvironmentDigest(request), None).Fresh? {
      if !ValidEnvironmentChange(request) {
        FailEnvironmentKeeps(db, request, ValidationFailed, "environment.validation_failed");
      } else if request.action == "create" {
        if request.key in db.environments {
          FailEnvironmentKeeps(db, request, Conflict, "environment.conflict");
        } else if NewEnvironmentId(db, newId) {
          SetEnvironmentKeeps(db, request, Environment(newId, request.displayName, false), Success);
        }
      } else if request.key !in db.environments {
        FailEnvironmentKeeps(db, request, ValidationFailed,
                             if request.action == "rename" then "environment.not_active" else "environment.not_found");
      } else {
        var was := db.environments[request.key];
        var archive := request.action == "archive";
        if request.action == "rename" && was.archived {
          FailEnvironmentKeeps(db, request, ValidationFailed, "environment.not_active");
        } else if request.action == "rename" {
          SetEnvironmentKeeps(db, request, was.(name := request.displayName),
                              if was.name == request.displayName then NoChange else Success);
        } else {
          SetEnvironmentKeeps(db, request, was.(archived := archive), if was.archived == archive then NoChange
                              else Success);
        }
      }
    }
  }
}
