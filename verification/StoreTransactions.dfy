/** The mutation methods as the source runs them, statement by statement inside one transaction `tx`
    that reaches the database only when it commits. Each is proved against its step function in
    ConfigStore. */
module StoreTransactions {
  import opened Ordering
  import opened References
  import opened Encoding
  import opened ConfigStore
  import opened CommitMeaning
  import opened ChangeMeaning
  import Etags
  import KeyRotation

  /** The transaction after beginOperation has inserted its row. */
  function WithPending(db: Db, id: string, digest: Digest, actor: Actor): Db {
    db.(operations := db.operations[id := Operation(digest, actor, Pending)])
  }

  lemma {:induction false} WarningsAppend(db: Db, environmentId: string, references: seq<Reference>, r: Reference)
    ensures Warnings(db, environmentId, references + [r]) == Warnings(db, environmentId, references)
            + Warn(db, environmentId, r)
  {
    hide Warn;
    if references == [] {
      assert Warnings(db, environmentId, [r]) == Warn(db, environmentId, r) + [];
    } else {
      WarningsAppend(db, environmentId, references[1..], r);
      assert (references + [r])[1..] == references[1..] + [r];
    }
  }

  lemma {:induction false} WarningsOfVault(db: Db, tx: Db, environmentId: string, references: seq<Reference>)
    requires tx.vaultItems == db.vaultItems && tx.vaultRows == db.vaultRows
    ensures Warnings(tx, environmentId, references) == Warnings(db, environmentId, references)
  {
    if references != [] {
      WarningsOfVault(db, tx, environmentId, references[1..]);
    }
  }

  class Store {
    const codec: Codec
    var db: Db

    constructor (codec: Codec, db: Db)
      ensures this.codec == codec && this.db == db
    {
      this.codec, this.db := codec, db;
    }

    /** INSERT ... ON DUPLICATE KEY, then the checks on an existing row. */
    method BeginOperation(tx: Db, id: string, digest: Digest, actor: Actor, compatible: Option<Digest>)
      returns (begun: Begun, now: Db)
      ensures begun == Begin(tx, id, digest, compatible)
      ensures now == if begun.Fresh? then WithPending(tx, id, digest, actor) else tx
    {
      if id !in tx.operations {
        return Fresh, tx.(operations := tx.operations[id := Operation(digest, actor, Pending)]);
      }
      now := tx;
      var stored := tx.operations[id];
      var matches := stored.digest == digest;
      if compatible.Some? {
        matches := matches || stored.digest == compatible.value;
      }
      if !matches {
        return Reused, now;
      }
      if stored.progress.Pending? {
        return Incomplete, now;
      }
      begun := Replay(stored.progress.outcome, stored.progress.response);
    }

    /** UPDATE operations, which looks for a pending row. */
    method CompleteRow(row: Operation, c: Completion) returns (now: Operation)
      requires row == Operation(c.digest, c.actor, Pending)
      ensures now == c.Row()
    {
      var resultingRevision := 0;
      if c.response.outcome == Success && c.revision > 0 {
        resultingRevision := c.revision;
      }
      now := row;
      if row.progress.Pending? {
        now := row.(progress := Completed(c.response.outcome, c.response, resultingRevision));
      }
    }

    /** UPDATE operations ... WHERE outcome = 'pending', then the outbox rows. */
    method FinishOperation(tx: Db, c: Completion, ghost before: Db) returns (now: Db)
      requires tx == WithPending(before, c.id, c.digest, c.actor)
      ensures now == Finish(before, c)
    {
      hide EventOf;
      var row := CompleteRow(tx.operations[c.id], c);
      var operations := tx.operations[c.id := row];
      assert operations == before.operations[c.id := row];
      var outbox := tx.outbox + [c.EventFor(Audit)];
      if c.notify {
        outbox := outbox + [c.EventFor(Notification)];
      }
      now := tx.(operations := operations, outbox := outbox);
    }

    /** configWarnings: one warning for each reference that is not usable, in order. */
    method FindWarnings(tx: Db, environmentId: string, references: seq<Reference>) returns (warnings: seq<Warning>)
      ensures warnings == Warnings(tx, environmentId, references)
      ensures WarnsExactly(tx, environmentId, references, warnings)
    {
      hide WarnsExactly;
      warnings := [];
      for i := 0 to |references|
        invariant warnings == Warnings(tx, environmentId, references[..i])
      {
        var reference := references[i];
        WarningsAppend(tx, environmentId, references[..i], reference);
        assert references[..i + 1] == references[..i] + [reference];
        var key := Etags.ItemKey(reference.namespaceKey, reference.itemKey);
        if key !in tx.vaultItems || tx.vaultItems[key].archived {
          warnings := warnings + [Warning("missing_vault_item", reference)];
          continue;
        }
        var item := KeyRotation.RowKey(tx.vaultItems[key].id, tx.vaultItems[key].currentRevision);
        var fieldExists := item in tx.vaultRows && reference.fieldKey in tx.vaultRows[item].fields
                           && !tx.vaultRows[item].fields[reference.fieldKey].archived;
        if !fieldExists {
          warnings := warnings + [Warning("missing_vault_field", reference)];
          continue;
        }
        if environmentId !in tx.vaultRows[item].bindings {
          warnings := warnings + [Warning("missing_vault_environment_variant", reference)];
        }
      }
      assert references[..|references|] == references;
      WarningsTell(tx, environmentId, references);
    }

    /** finishConfigOperation. */
    method FinishConfigOperation(tx: Db, request: ConfigCommit, meta: Meta, response: Response, eventType: string,
                                 notify: bool, ghost before: Db)
      returns (now: Db)
      requires tx == WithPending(before, request.operationId, DigestOf(request, meta), request.actor)
      requires response.ConfigResult?
      ensures now == Finish(before, ConfigCompletion(request, meta, DigestOf(request, meta), response, eventType,
                                                     notify))
    {
      hide DigestOf, Finish;
      now := FinishOperation(tx, Completion(request.operationId, DigestOf(request, meta), request.actor, response,
                                            response.revision, eventType, "config." + meta.action,
                                            request.environmentKey, "config", request.configKey, notify), before);
    }

    /** finishConfigFailure: the failure is recorded and committed. */
    method FinishConfigFailure(tx: Db, request: ConfigCommit, meta: Meta, outcome: Outcome, failure: Failure,
                               ghost before: Db)
      returns (reply: Reply)
      requires tx == WithPending(before, request.operationId, DigestOf(request, meta), request.actor)
      modifies this
      ensures (db, reply) == RejectConfig(before, request, meta, DigestOf(request, meta), outcome, failure)
      ensures reply == Returned(ConfigResult(outcome, 0, [], Some(failure)), failure.Class())
    {
      var response := ConfigResult(outcome, 0, [], Some(failure));
      db := FinishConfigOperation(tx, request, meta, response, EventName(meta, OutcomeText(outcome)), false, before);
      reply := Returned(response, failure.Class());
    }

    /** commitConfig. */
    method CommitConfig(request: ConfigCommit, meta: Meta, newId: string) returns (reply: Reply)
      modifies this
      ensures (db, reply) == ConfigStore.CommitConfig(codec, old(db), request, meta, newId)
      ensures CommitAnswers(codec, old(db), db, request, meta, reply)
    {
      PromptMeans(codec, db, request, meta, newId);
      hide CommitAnswers, ValidOperationId, Finish, Warnings, DigestOf, Validate, RejectConfig, WithPending, Compare,
           WriteRevision;
      if !ValidOperationId(request.operationId) || !ValidActor(request.actor) {
        return Failed(InvalidRequest);
      }
      var validated := Validate(codec, request);
      var begun, tx := BeginOperation(db, request.operationId, DigestOf(request, meta), request.actor,
                                      meta.legacyDigest);
      match begun {
        case Reused => return Failed(OperationReuse);
        case Incomplete => return Failed(OperationIncomplete);
        case Replay(outcome, response) => return ReplayReply(outcome, response);
        case Fresh =>
      }
      PendingTables(db, request.operationId, DigestOf(request, meta), request.actor);
      if validated.Invalid? {
        reply := FinishConfigFailure(tx, request, meta, ValidationFailed, validated.failure, db);
        return;
      }
      if request.environmentKey !in tx.environments || tx.environments[request.environmentKey].archived {
        reply := FinishConfigFailure(tx, request, meta, ValidationFailed,
                                     Failure("target_environment", "target_environment_unavailable"), db);
        return;
      }
      var environmentId := tx.environments[request.environmentKey].id;
      var found := request.configKey in tx.configs;
      if found && meta.createOnly {
        reply := FinishConfigFailure(tx, request, meta, Conflict, Failure("target_config", "clone_target_exists"), db);
        return;
      }
      if found && tx.configs[request.configKey].archived {
        reply := FinishConfigFailure(tx, request, meta, ValidationFailed, Failure("target_config", "config_archived"),
                                     db);
        return;
      }
      if !found && request.expectedRevision != 0 {
        reply := FinishConfigFailure(tx, request, meta, Conflict,
                                     Failure("expected_target_revision", "target_revision_changed"), db);
        return;
      }
      if !found && exists key :: key in tx.configs && tx.configs[key].id == newId {
        return Failed(DatabaseError);
      }
      reply := CompareAndWrite(tx, request, meta, validated, if found then tx.configs[request.configKey].id
                               else newId, environmentId, db);
    }

    /** The second half of commitConfig, from the locked current revision on. */
    method CompareAndWrite(tx: Db, request: ConfigCommit, meta: Meta, validated: Validated, configId: string,
                           environmentId: string,
                           ghost before: Db) returns (reply: Reply)
      requires db == before && tx == WithPending(before, request.operationId, DigestOf(request, meta), request.actor)
      requires validated.Valid?
      modifies this
      ensures (db, reply) == CompareCurrent(before, request, meta, validated, Binding(configId, environmentId))
      ensures CarriesWarnings(before, environmentId, validated.document.references, reply)
    {
      hide WarnsExactly, Warnings, DigestOf, Validate, RejectConfig, Finish, EventName, NewRevision, SuccessEvent,
           ConfigCompletion, WriteRevision;
      var binding := Binding(configId, environmentId);
      var now := tx;
      if request.configKey !in now.configs {
        now := now.(configs := now.configs[request.configKey := Config(configId, request.configName, false)]);
      }
      assert now == WithConfig(before, request, meta, configId);
      var current := CurrentOf(now, binding);
      SameCurrent(before, request, meta, configId, binding);
      hide WithPending, WithConfig, CurrentOf;
      if current.Broken? {
        return Failed(DatabaseError);
      }
      var revision := RevisionOf(current);
      if request.expectedRevision != revision {
        reply := FinishConfigFailure(tx, request, meta, Conflict, Failure("expected_target_revision",
                   if request.expectedRevision == 0 then "target_config_exists" else "target_revision_changed"),
                       before);
        return;
      }
      var warnings := FindWarnings(now, environmentId, validated.document.references);
      WarningsOfVault(before, now, environmentId, validated.document.references);
      WarningsTell(before, environmentId, validated.document.references);
      if revision > 0 && current.row.format == request.format && current.row.content == validated.document.content {
        var response := ConfigResult(NoChange, revision, warnings, None);
        db := FinishConfigOperation(tx, request, meta, response, EventName(meta, "no_change"), false, before);
        return Returned(response, NoError);
      }
      if revision + 1 == UINT64_LIMIT {
        return Failed(DatabaseError);
      }
      reply := WriteNext(now, request, meta, validated.document, binding, revision, warnings, before);
    }

    /** The inserts of a success, and the end of its transaction. */
    method WriteNext(tx: Db, request: ConfigCommit, meta: Meta, document: Document, binding: Binding, revision: nat,
                     warnings: seq<Warning>, ghost before: Db) returns (reply: Reply)
      requires tx == WithConfig(before, request, meta, binding.configId)
      modifies this
      ensures (db, reply) == Settle(before, request, meta, Valid(document), Advance(binding, revision + 1, warnings))
    {
      hide DigestOf, Finish, WithPending;
      var row := NewRevision(request, meta, document);
      var now := tx.(revisions := tx.revisions[RevisionId(binding, revision + 1) := row]);
      now := now.(states := now.states[binding := revision + 1]);
      var response := ConfigResult(Success, revision + 1, warnings, None);
      var event := meta.successEvent;
      if event == "" {
        event := "config.updated";
        if revision == 0 {
          event := "config.created";
        }
      }
      PendingWritten(before, now, request, meta, document, binding, revision + 1);
      db := FinishConfigOperation(now, request, meta, response, event, true,
                                  WriteRevision(before, request, meta, document, binding, revision + 1));
      reply := Returned(response, NoError);
    }

    /** rejectConfigTransfer. */
    method RejectConfigTransfer(request: ConfigCommit, meta: Meta, failure: Failure) returns (reply: Reply)
      modifies this
      ensures (db, reply) == RejectTransfer(old(db), request, meta, failure)
    {
      hide DigestOf, RejectConfig;
      var begun, tx := BeginOperation(db, request.operationId, DigestOf(request, meta), request.actor, None);
      match begun
      case Reused => reply := Failed(OperationReuse);
      case Incomplete => reply := Failed(OperationIncomplete);
      case Replay(outcome, response) => reply := ReplayReply(outcome, response);
      case Fresh => reply := FinishConfigFailure(tx, request, meta, ValidationFailed, failure, db);
    }

    /** ApplyConfigLifecycleChange. */
    method ApplyConfigLifecycleChange(request: LifecycleChange) returns (reply: Reply)
      modifies this
      ensures (db, reply) == ChangeLifecycle(old(db), request) && LifecycleTold(old(db), db, request, reply)
    {
      LifecycleTells(db, request);
      hide LifecycleTold, ValidOperationId, ValidResourceKey, Finish;
      if !ValidOperationId(request.operationId) || !ValidActor(request.actor) {
        return Failed(InvalidRequest);
      }
      var begun, tx := BeginOperation(db, request.operationId, LifecycleDigest(request), request.actor, None);
      match begun {
        case Reused => return Failed(OperationReuse);
        case Incomplete => return Failed(OperationIncomplete);
        case Replay(outcome, response) => return ReplayReply(outcome, response);
        case Fresh =>
      }
      if !ValidResourceKey(request.key) || (request.action != "archive" && request.action != "unarchive") {
        reply := FinishLifecycleFailure(tx, request, "config.validation_failed", db);
        return;
      }
      if request.key !in tx.configs {
        reply := FinishLifecycleFailure(tx, request, "config.not_found", db);
        return;
      }
      var config := tx.configs[request.key];
      var outcome, archived := NoChange, false;
      if request.action == "archive" {
        archived := true;
        if !config.archived {
          tx := tx.(configs := tx.configs[request.key := config.(archived := true)]);
          outcome := Success;
        }
      } else if config.archived {
        tx := tx.(configs := tx.configs[request.key := config.(archived := false)]);
        outcome := Success;
      }
      var response := LifecycleResult(outcome, request.key, archived);
      ghost var changed := db.(configs := db.configs[request.key := config.(archived := request.action == "archive")]);
      assert tx.configs == changed.configs;
      var event := if request.action == "unarchive" then "config.unarchived" else "config.archived";
      db := FinishOperation(tx, LifecycleCompletion(request, response, event, response.outcome == Success), changed);
      reply := Returned(response, NoError);
    }

    method FinishLifecycleFailure(tx: Db, request: LifecycleChange, eventType: string, ghost before: Db)
      returns (reply: Reply)
      requires tx == WithPending(before, request.operationId, LifecycleDigest(request), request.actor)
      modifies this
      ensures (db, reply) == FailLifecycle(before, request, eventType)
    {
      var response := LifecycleResult(ValidationFailed, request.key, false);
      db := FinishOperation(tx, LifecycleCompletion(request, response, eventType, false), before);
      reply := Returned(response, ErrValidation);
    }

    /** ApplyEnvironmentChange. */
    method ApplyEnvironmentChange(request: EnvironmentChange, newId: string) returns (reply: Reply)
      modifies this
      ensures (db, reply) == ChangeEnvironment(old(db), request, newId)
      ensures EnvironmentTold(old(db), db, request, newId, reply)
    {
      EnvironmentTells(db, request, newId);
      hide EnvironmentTold, ValidOperationId, ValidResourceKey, Finish, ValidEnvironmentChange;
      if !ValidOperationId(request.operationId) || !ValidActor(request.actor) {
        return Failed(InvalidRequest);
      }
      var begun, tx := BeginOperation(db, request.operationId, EnvironmentDigest(request), request.actor, None);
      match begun {
        case Reused => return Failed(OperationReuse);
        case Incomplete => return Failed(OperationIncomplete);
        case Replay(outcome, response) => return ReplayReply(outcome, response);
        case Fresh =>
      }
      if !ValidEnvironmentChange(request) {
        reply := FinishEnvironmentFailure(tx, request, ValidationFailed, "environment.validation_failed", db);
        return;
      }
      EnvironmentActions(request);
      reply := SwitchEnvironment(tx, request, newId, db);
    }

    lemma EnvironmentActions(request: EnvironmentChange)
      requires ValidEnvironmentChange(request)
      ensures request.action in {"create", "rename", "archive", "unarchive"}
    {
    }

    /** The switch on the action. */
    method SwitchEnvironment(tx: Db, request: EnvironmentChange, newId: string, ghost before: Db) returns (reply: Reply)
      requires db == before && tx == WithPending(before, request.operationId, EnvironmentDigest(request), request.actor)
      requires ValidEnvironmentChange(request) && request.action in {"create", "rename", "archive", "unarchive"}
      modifies this
      ensures (db, reply) == FreshEnvironment(before, request, newId)
    {
      hide Finish, ValidEnvironmentChange;
      var found := request.key in tx.environments;
      if request.action == "create" {
        if found {
          reply := FinishEnvironmentFailure(tx, request, Conflict, "environment.conflict", before);
          return;
        }
        if exists key :: key in tx.environments && tx.environments[key].id == newId {
          return Failed(DatabaseError);
        }
        reply := StoreEnvironment(tx, request, Environment(newId, request.displayName, false), Success, before);
      } else if request.action == "rename" {
        if !found || tx.environments[request.key].archived {
          reply := FinishEnvironmentFailure(tx, request, ValidationFailed, "environment.not_active", before);
          return;
        }
        var was := tx.environments[request.key];
        if was.name == request.displayName {
          assert was.(name := request.displayName) == was;
          reply := StoreEnvironment(tx, request, was, NoChange, before);
          return;
        }
        reply := StoreEnvironment(tx, request, was.(name := request.displayName), Success, before);
      } else {
        if !found {
          reply := FinishEnvironmentFailure(tx, request, ValidationFailed, "environment.not_found", before);
          return;
        }
        var was := tx.environments[request.key];
        if request.action == "archive" {
          reply := StoreEnvironment(tx, request, was.(archived := true), if was.archived then NoChange else Success,
                                    before);
        } else {
          reply := StoreEnvironment(tx, request, was.(archived := false), if was.archived then Success else NoChange,
                                    before);
        }
      }
    }

    method FinishEnvironmentFailure(tx: Db, request: EnvironmentChange, outcome: Outcome, eventType: string,
                                    ghost before: Db)
      returns (reply: Reply)
      requires tx == WithPending(before, request.operationId, EnvironmentDigest(request), request.actor)
      modifies this
      ensures (db, reply) == FailEnvironment(before, request, outcome, eventType)
    {
      var response := EnvironmentResult(outcome, request.key, "", false);
      db := FinishOperation(tx, EnvironmentCompletion(request, response, eventType, false), before);
      reply := Returned(response, if outcome == Conflict then ErrConflict else ErrValidation);
    }

    /** The UPDATE or INSERT, skipped when nothing changes, and the end of the transaction. */
    method StoreEnvironment(tx: Db, request: EnvironmentChange, env: Environment, outcome: Outcome, ghost before: Db)
      returns (reply: Reply)
      requires tx == WithPending(before, request.operationId, EnvironmentDigest(request), request.actor)
      requires outcome == Success
               || (outcome == NoChange && request.key in before.environments && before.environments[request.key] == env)
      modifies this
      ensures (db, reply) == SetEnvironment(before, request, env, outcome)
    {
      var now := tx;
      if outcome == Success {
        now := now.(environments := now.environments[request.key := env]);
      }
      ghost var changed := before.(environments := before.environments[request.key := env]);
      var response := EnvironmentResult(outcome, request.key, env.name, env.archived);
      assert now.environments == changed.environments;
      db := FinishOperation(now, EnvironmentCompletion(request, response, "environment." + request.action,
                                                       outcome == Success), changed);
      reply := Returned(response, NoError);
    }
  }

  /** A reply that is no failure carries the warnings about these references. */
  ghost predicate CarriesWarnings(db: Db, environmentId: string, references: seq<Reference>, reply: Reply) {
    reply.Returned? && (reply.response.outcome == Success || reply.response.outcome == NoChange) ==>
      reply.response.ConfigResult? && WarnsExactly(db, environmentId, references, reply.response.warnings)
  }

  /** What commitConfig does from the compare-and-swap on. */
  function CompareCurrent(db: Db, request: ConfigCommit, meta: Meta, validated: Validated, binding: Binding)
    : (Db, Reply)
    requires validated.Valid?
  {
    Settle(db, request, meta, validated, Compare(db, request, validated.document, binding))
  }

  lemma PendingTables(db: Db, id: string, digest: Digest, actor: Actor)
    ensures WithPending(db, id, digest, actor).environments == db.environments
    ensures WithPending(db, id, digest, actor).configs == db.configs
  {
  }

  /** The transaction once the Config's row is there. */
  function WithConfig(db: Db, request: ConfigCommit, meta: Meta, configId: string): Db {
    WithPending(db, request.operationId, DigestOf(request, meta), request.actor).(
      configs := if request.configKey in db.configs then db.configs
                 else db.configs[request.configKey := Config(configId, request.configName, false)])
  }

  lemma SameCurrent(db: Db, request: ConfigCommit, meta: Meta, configId: string, binding: Binding)
    ensures CurrentOf(WithConfig(db, request, meta, configId), binding) == CurrentOf(db, binding)
    ensures WithConfig(db, request, meta, configId).vaultItems == db.vaultItems
    ensures WithConfig(db, request, meta, configId).vaultRows == db.vaultRows
  {
  }

  lemma PendingWritten(before: Db, now: Db, request: ConfigCommit, meta: Meta, document: Document, binding: Binding,
                       revision: nat)
    requires var with := WithConfig(before, request, meta, binding.configId);
             var row := NewRevision(request, meta, document);
             now == with.(revisions := with.revisions[RevisionId(binding, revision) := row],
                          states := with.states[binding := revision])
    ensures now == WithPending(WriteRevision(before, request, meta, document, binding, revision), request.operationId,
                               DigestOf(request, meta), request.actor)
  {
  }
}
