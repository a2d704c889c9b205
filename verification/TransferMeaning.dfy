/** What a fresh merge, replace, restore or clone answers and leaves behind, from the tables and the request
    alone: when it is refused, when it conflicts, and which document, name and source it commits. */
module TransferMeaning {
  import opened Ordering
  import opened References
  import opened Encoding
  import opened ConfigStore
  import opened StoreInvariants
  import opened StoreSteps
  import opened CommitViews
  import opened StoreGuarantees
  import opened Transfers
  import opened CommitMeaning

  // ----- What is read -----

  /** The Config has this revision in the environment, archived or not. */
  predicate Has(db: Db, environmentKey: string, configKey: string, revision: nat) {
    && environmentKey in db.environments && configKey in db.configs
    && RevisionId(Binding(db.configs[configKey].id, db.environments[environmentKey].id), revision) in db.revisions
  }

  function Row(db: Db, environmentKey: string, configKey: string, revision: nat): Revision
    requires Has(db, environmentKey, configKey, revision)
  {
    db.revisions[RevisionId(Binding(db.configs[configKey].id, db.environments[environmentKey].id), revision)]
  }

  predicate Available(db: Db, environmentKey: string, configKey: string, revision: nat) {
    && Has(db, environmentKey, configKey, revision)
    && !db.environments[environmentKey].archived && !db.configs[configKey].archived
  }

  lemma ReadMeans(db: Db, environmentKey: string, configKey: string, revision: nat)
    ensures ReadRevision(db, environmentKey, configKey, revision).Some? <==>
            Has(db, environmentKey, configKey, revision)
    ensures Has(db, environmentKey, configKey, revision) ==>
              var snapshot := ReadRevision(db, environmentKey, configKey, revision).value;
              && (snapshot.active <==> Available(db, environmentKey, configKey, revision))
              && snapshot.configId == db.configs[configKey].id
              && snapshot.environmentId == db.environments[environmentKey].id
              && snapshot.displayName == db.configs[configKey].name
              && snapshot.format == Row(db, environmentKey, configKey, revision).format
              && snapshot.content == Row(db, environmentKey, configKey, revision).content
  {
  }

  // ----- When a transfer goes on -----

  predicate Creates(request: ConfigTransfer, action: string) {
    action == "replace" && request.targetRevision == 0 && request.expectedTargetRevision == 0
  }

  predicate KeysGiven(sourceEnvironment: string, sourceConfig: string, targetEnvironment: string,
                      targetConfig: string) {
    && ValidResourceKey(sourceEnvironment) && ValidResourceKey(sourceConfig)
    && ValidResourceKey(targetEnvironment) && ValidResourceKey(targetConfig)
  }

  /** Keys and revisions are given, and the source is available. */
  predicate Sourced(db: Db, request: ConfigTransfer, action: string) {
    && KeysGiven(request.sourceEnvironmentKey, request.sourceConfigKey, request.targetEnvironmentKey,
                 request.targetConfigKey)
    && request.sourceRevision > 0
    && (Creates(request, action) || (request.targetRevision > 0 && request.expectedTargetRevision > 0))
    && Available(db, request.sourceEnvironmentKey, request.sourceConfigKey, request.sourceRevision)
  }

  function SourceRow(db: Db, request: ConfigTransfer, action: string): Revision
    requires Sourced(db, request, action)
  {
    Row(db, request.sourceEnvironmentKey, request.sourceConfigKey, request.sourceRevision)
  }

  /** The target is available too, and can be merged with if that is asked for; a transfer that creates its
      target needs none. */
  predicate Feasible(codec: Codec, db: Db, request: ConfigTransfer, action: string, merge: bool) {
    && Sourced(db, request, action)
    && (!Creates(request, action) ==>
          && Available(db, request.targetEnvironmentKey, request.targetConfigKey, request.targetRevision)
          && (merge ==>
                var source := SourceRow(db, request, action);
                var target := Row(db, request.targetEnvironmentKey, request.targetConfigKey, request.targetRevision);
                source.format == target.format
                    && codec.merge(source.format, source.content, target.content).Some?))
  }

  /** What it commits: the source's content, or that merged into the target's. */
  function Outgoing(codec: Codec, db: Db, request: ConfigTransfer, action: string, merge: bool): string
    requires Feasible(codec, db, request, action, merge)
  {
    var source := SourceRow(db, request, action);
    if merge && !Creates(request, action) then
      var target := Row(db, request.targetEnvironmentKey, request.targetConfigKey, request.targetRevision);
      codec.merge(source.format, source.content, target.content).value.content
    else source.content
  }

  /** Its document and name are ones that a commit accepts. */
  predicate Acceptable(codec: Codec, db: Db, request: ConfigTransfer, action: string, merge: bool) {
    && Feasible(codec, db, request, action, merge)
    && codec.canonicalize(SourceRow(db, request, action).format, Outgoing(codec, db, request, action, merge)).Some?
    && 0 < |db.configs[request.sourceConfigKey].name| <= 255
  }

  function Committing(codec: Codec, db: Db, request: ConfigTransfer, action: string, merge: bool): Document
    requires Acceptable(codec, db, request, action, merge)
  {
    codec.canonicalize(SourceRow(db, request, action).format, Outgoing(codec, db, request, action, merge)).value
  }

  /** The commit that a feasible transfer prepares. */
  predicate CommitFor(codec: Codec, db: Db, request: ConfigTransfer, action: string, merge: bool, commit: ConfigCommit,
                      meta: Meta)
    requires Feasible(codec, db, request, action, merge)
  {
    && commit.operationId == request.operationId && commit.actor == request.actor
    && commit.environmentKey == request.targetEnvironmentKey && commit.configKey == request.targetConfigKey
    && commit.expectedRevision == request.expectedTargetRevision
    && commit.configName == db.configs[request.sourceConfigKey].name
    && commit.format == SourceRow(db, request, action).format
    && commit.content == Outgoing(codec, db, request, action, merge)
    && meta.action == action && meta.successEvent == "config." + action + "d" && !meta.createOnly
    && meta.requestDigest == Some(TransferDigest(action, request))
    && meta.source == Some(Source(db.configs[request.sourceConfigKey].id,
                                  db.environments[request.sourceEnvironmentKey].id, request.sourceRevision))
  }

  predicate RefusalFor(request: ConfigTransfer, action: string, shell: ConfigCommit, meta: Meta) {
    && shell.operationId == request.operationId && shell.actor == request.actor
    && shell.environmentKey == request.targetEnvironmentKey && shell.configKey == request.targetConfigKey
    && meta.action == action && meta.requestDigest == Some(TransferDigest(action, request))
  }

  lemma PreconditionsMean(request: ConfigTransfer, action: string)
    ensures var failure := TransferPreconditions(request, action);
            && (failure.None? <==>
                  && KeysGiven(request.sourceEnvironmentKey, request.sourceConfigKey, request.targetEnvironmentKey,
                               request.targetConfigKey)
                  && request.sourceRevision > 0
                  && (Creates(request, action) || (request.targetRevision > 0 && request.expectedTargetRevision > 0)))
            && (failure.Some? ==> !ConflictReason(failure.value.reason))
  {
    hide ValidResourceKey;
  }

  lemma FreshUnreplayed(db: Db, id: string)
    requires id !in db.operations
    ensures forall digest :: ReplayOperation(db, id, digest).None?
  {
  }

  lemma PreparesExactly(codec: Codec, db: Db, request: ConfigTransfer, action: string, merge: bool)
    requires request.operationId !in db.operations
    ensures var prepared := PrepareTransfer(codec, db, db, db, db, request, action, merge);
            && RefusalFor(request, action, TransferShell(request), TransferMeta(request, action))
            && if Feasible(codec, db, request, action, merge)
               then prepared.Ready? && CommitFor(codec, db, request, action, merge, prepared.commit, prepared.meta)
               else prepared.Refusal? && !ConflictReason(prepared.failure.reason)
  {
    hide KeysGiven, ReadRevision, Has, TransferPreconditions, Row, ReplayOperation;
    FreshUnreplayed(db, request.operationId);
    PreconditionsMean(request, action);
    ReadMeans(db, request.sourceEnvironmentKey, request.sourceConfigKey, request.sourceRevision);
    ReadMeans(db, request.targetEnvironmentKey, request.targetConfigKey, request.targetRevision);
  }

  // ----- What a transfer leaves behind -----

  /** The Config may be committed to. */
  predicate Open(db: Db, environmentKey: string, configKey: string) {
    Active(db, environmentKey) && (configKey in db.configs ==> !db.configs[configKey].archived)
  }

  /** A fresh request with an identity. */
  predicate FreshBy(db: Db, operationId: string, actor: Actor) {
    operationId !in db.operations && ValidOperationId(operationId) && ValidActor(actor)
  }

  /** The Config now has this revision as its current one; one that was not there before has got the name. */
  predicate Placed(was: Db, now: Db, environmentKey: string, configKey: string, revision: nat, row: Revision,
                   name: string) {
    && CurrentRevision(now, environmentKey, configKey) == revision
    && CurrentDocument(now, environmentKey, configKey) == Some(row)
    && configKey in now.configs && (configKey !in was.configs ==> now.configs[configKey].name == name)
  }

  /** What is recorded of a transfer. */
  function TransferRecord(request: ConfigTransfer, action: string, response: Response): Completion
    requires response.ConfigResult?
  {
    Completion(request.operationId, TransferDigest(action, request), request.actor, response, response.revision,
               match response.outcome
               case Success => "config." + action + "d"
               case NoChange => "config." + action + "." + "no_change"
               case Conflict => "config." + action + "." + "conflict"
               case ValidationFailed => "config." + action + "." + "validation_failed",
               "config." + action, request.targetEnvironmentKey, "config", request.targetConfigKey,
               response.outcome == Success)
  }

  /** The answer to a transfer of an acceptable document: a conflict unless the expected revision is current; no
      change when the document is already there; otherwise the next revision, which holds it. */
  ghost predicate TransferAnswers(codec: Codec, db: Db, now: Db, request: ConfigTransfer, action: string, merge: bool,
                                  reply: Reply)
    requires Acceptable(codec, db, request, action, merge)
  {
    var source, document := SourceRow(db, request, action), Committing(codec, db, request, action, merge);
    var environmentKey, configKey := request.targetEnvironmentKey, request.targetConfigKey;
    var current := CurrentDocument(db, environmentKey, configKey);
    && reply.Returned? && reply.response.ConfigResult? && Told(db, now, TransferRecord(request, action, reply.response))
    && if CurrentRevision(db, environmentKey, configKey) != request.expectedTargetRevision then
         reply.response.outcome == Conflict && TablesUntouched(db, now)
       else
         && environmentKey in db.environments
         && WarnsExactly(db, db.environments[environmentKey].id, document.references, reply.response.warnings)
         && if current.Some? && current.value.format == source.format && current.value.content == document.content then
              && reply.response.outcome == NoChange && reply.response.revision == request.expectedTargetRevision
              && TablesUntouched(db, now)
            else
              && reply.response.outcome == Success && reply.response.revision == request.expectedTargetRevision + 1
              && Placed(db, now, environmentKey, configKey, request.expectedTargetRevision + 1,
                        Revision(source.format, document.content, document.references, request.operationId,
                                 request.actor,
                                 Some(Source(db.configs[request.sourceConfigKey].id,
                                             db.environments[request.sourceEnvironmentKey].id,
                                             request.sourceRevision))),
                        db.configs[request.sourceConfigKey].name)
  }

  lemma TransferCommits(codec: Codec, db: Db, request: ConfigTransfer, action: string, merge: bool,
                        commit: ConfigCommit, meta: Meta, now: Db, reply: Reply)
    requires Acceptable(codec, db, request, action, merge)
    requires CommitFor(codec, db, request, action, merge, commit, meta)
    requires Accepts(codec, commit) && Answers(codec, db, db, now, commit, meta, reply) && reply.Returned?
    requires reply.response.outcome == (if !Expected(db, commit, meta) then Conflict
                                        else if Unchanged(codec, db, commit) then NoChange else Success)
    requires if reply.response.outcome == Success
             then OneRevisionAdded(codec, db, now, commit, meta) && Puts(codec, now, commit, meta)
             else TablesUntouched(db, now)
    ensures TransferAnswers(codec, db, now, request, action, merge, reply)
  {
    hide Accepts, Told, Feasible, FailsFor, CurrentRevision, CurrentDocument, WarnsExactly, Outgoing, SourceRow,
         TablesUntouched;
    assert CommitRecord(commit, meta, reply.response) == TransferRecord(request, action, reply.response);
  }

  lemma AcceptableCommit(codec: Codec, db: Db, request: ConfigTransfer, action: string, merge: bool,
                         commit: ConfigCommit, meta: Meta)
    requires Acceptable(codec, db, request, action, merge)
    requires CommitFor(codec, db, request, action, merge, commit, meta)
    ensures Accepts(codec, commit)
  {
    hide ValidResourceKey, Outgoing, Available, Row;
  }

  /** A fresh transfer of an acceptable document into a Config that is open answers like this. */
  lemma TransferMeans(codec: Codec, db: Db, request: ConfigTransfer, action: string, merge: bool, newId: string)
    requires StoreWell(db) && FreshBy(db, request.operationId, request.actor) && NewConfigId(db, newId)
    requires request.expectedTargetRevision + 1 < UINT64_LIMIT
    requires Acceptable(codec, db, request, action, merge)
    requires Open(db, request.targetEnvironmentKey, request.targetConfigKey)
    ensures var (now, reply) := Transfer(codec, db, request, action, merge, newId);
            TransferAnswers(codec, db, now, request, action, merge, reply)
  {
    hide StoreWell, ValidOperationId, ValidActor, NewConfigId, PrepareTransfer, CommitAt, Accepts, Answers,
         TransferAnswers, Expected, Unchanged, OneRevisionAdded, Puts, TablesUntouched, Sourced, Active;
    PreparesExactly(codec, db, request, action, merge);
    var prepared := PrepareTransfer(codec, db, db, db, db, request, action, merge);
    var (now, reply) := CommitAt(codec, db, db, prepared.commit, prepared.meta, newId);
    AcceptableCommit(codec, db, request, action, merge, prepared.commit, prepared.meta);
    CommitSettles(codec, db, prepared.commit, prepared.meta, newId);
    TransferCommits(codec, db, request, action, merge, prepared.commit, prepared.meta, now, reply);
  }

  /** Any other fresh transfer is refused, which is recorded and changes nothing. */
  lemma InfeasibleRefused(codec: Codec, db: Db, request: ConfigTransfer, action: string, merge: bool, newId: string)
    requires FreshBy(db, request.operationId, request.actor) && !Feasible(codec, db, request, action, merge)
    ensures var (now, reply) := Transfer(codec, db, request, action, merge, newId);
            && reply.Returned? && reply.response.ConfigResult? && reply.response.outcome == ValidationFailed
            && Told(db, now, TransferRecord(request, action, reply.response)) && TablesUntouched(db, now)
  {
    hide ValidOperationId, ValidActor, PrepareTransfer, Feasible, Told, TablesUntouched, RejectTransfer, TransferShell;
    PreparesExactly(codec, db, request, action, merge);
    var prepared := PrepareTransfer(codec, db, db, db, db, request, action, merge);
    var shell, meta := TransferShell(request), TransferMeta(request, action);
    RefusalMeans(db, shell, meta, prepared.failure);
    var response := RejectTransfer(db, shell, meta, prepared.failure).1.response;
    assert CommitRecord(shell, meta, response) == TransferRecord(request, action, response);
  }

  /** A fresh transfer is answered like this when it is acceptable, and refused when it is not feasible. */
  ghost predicate TransferTold(codec: Codec, db: Db, now: Db, request: ConfigTransfer, action: string, merge: bool,
                               newId: string, reply: Reply) {
    && StoreWell(db) && FreshBy(db, request.operationId, request.actor) && NewConfigId(db, newId)
    && request.expectedTargetRevision + 1 < UINT64_LIMIT
    ==> && (Acceptable(codec, db, request, action, merge)
            && Open(db, request.targetEnvironmentKey, request.targetConfigKey) ==>
              TransferAnswers(codec, db, now, request, action, merge, reply))
        && (!Feasible(codec, db, request, action, merge) ==>
              && reply.Returned? && reply.response.ConfigResult? && reply.response.outcome == ValidationFailed
              && Told(db, now, TransferRecord(request, action, reply.response)) && TablesUntouched(db, now))
  }

  lemma TransferTells(codec: Codec, db: Db, request: ConfigTransfer, action: string, merge: bool, newId: string)
    ensures var (now, reply) := Transfer(codec, db, request, action, merge, newId);
            TransferTold(codec, db, now, request, action, merge, newId, reply)
  {
    hide StoreWell, FreshBy, NewConfigId, Transfer, Acceptable, Open, Feasible, TransferAnswers, Told, TablesUntouched;
    if StoreWell(db) && FreshBy(db, request.operationId, request.actor) && NewConfigId(db, newId)
       && request.expectedTargetRevision + 1 < UINT64_LIMIT {
      if !Feasible(codec, db, request, action, merge) {
        InfeasibleRefused(codec, db, request, action, merge, newId);
      }
      if Acceptable(codec, db, request, action, merge)
         && Open(db, request.targetEnvironmentKey, request.targetConfigKey) {
        TransferMeans(codec, db, request, action, merge, newId);
      }
    }
  }

  // ----- Restoring an earlier revision -----

  lemma HasUpToCurrent(db: Db, environmentKey: string, configKey: string, revision: nat)
    requires StoreWell(db) && environmentKey in db.environments && configKey in db.configs
    ensures Has(db, environmentKey, configKey, revision) <==>
            1 <= revision <= CurrentRevision(db, environmentKey, configKey)
  {
    hide StoreWell, BindingsWell;
    Histories(db);
  }

  /** The revision is there and its document and name are ones that a commit accepts. */
  predicate Restorable(codec: Codec, db: Db, environmentKey: string, configKey: string, revision: nat) {
    && Available(db, environmentKey, configKey, revision)
    && ValidResourceKey(environmentKey) && ValidResourceKey(configKey) && 0 < |db.configs[configKey].name| <= 255
    && codec.canonicalize(Row(db, environmentKey, configKey, revision).format,
                          Row(db, environmentKey, configKey, revision).content).Some?
  }

  /** What a fresh restore answers and leaves. */
  ghost predicate RestoreAnswers(codec: Codec, db: Db, now: Db, operationId: string, actor: Actor,
                                 environmentKey: string, configKey: string, sourceRevision: nat,
                                 expectedRevision: nat, reply: Reply)
    requires Restorable(codec, db, environmentKey, configKey, sourceRevision)
  {
    var current := CurrentRevision(db, environmentKey, configKey);
    var row := Row(db, environmentKey, configKey, sourceRevision);
    var document := codec.canonicalize(row.format, row.content).value;
    var was := CurrentDocument(db, environmentKey, configKey);
    && reply.Returned? && reply.response.ConfigResult?
    && if !(1 <= expectedRevision <= current) then
         reply.response.outcome == ValidationFailed && TablesUntouched(db, now)
       else if expectedRevision != current then reply.response.outcome == Conflict && TablesUntouched(db, now)
       else if was.Some? && was.value.format == row.format && was.value.content == document.content then
         reply.response.outcome == NoChange && reply.response.revision == current && TablesUntouched(db, now)
       else
         && reply.response.outcome == Success && reply.response.revision == current + 1
         && CurrentRevision(now, environmentKey, configKey) == current + 1
         && CurrentDocument(now, environmentKey, configKey)
            == Some(Revision(row.format, document.content, document.references, operationId, actor,
                             Some(Source(db.configs[configKey].id, db.environments[environmentKey].id,
                                         sourceRevision))))
  }

  /** A fresh restore of a revision that can be restored succeeds, or finds it current already, exactly when the
      revision it expects is the current one; an earlier one is a conflict, and any other is refused. */
  lemma RestoreMeans(codec: Codec, db: Db, operationId: string, actor: Actor, environmentKey: string,
                     configKey: string, sourceRevision: nat, expectedRevision: nat, newId: string)
    requires StoreWell(db) && FreshBy(db, operationId, actor) && NewConfigId(db, newId)
    requires expectedRevision + 1 < UINT64_LIMIT
    requires Restorable(codec, db, environmentKey, configKey, sourceRevision)
    ensures var request := ConfigTransfer(operationId, actor, environmentKey, configKey, sourceRevision,
                                          environmentKey, configKey, expectedRevision, expectedRevision);
            var (now, reply) := Transfer(codec, db, request, "restore", false, newId);
            RestoreAnswers(codec, db, now, operationId, actor, environmentKey, configKey, sourceRevision,
                           expectedRevision, reply)
  {
    hide StoreWell, NewConfigId, FreshBy, Transfer, Told, CurrentRevision, CurrentDocument, TablesUntouched,
         WarnsExactly, ValidResourceKey, Row;
    var request := ConfigTransfer(operationId, actor, environmentKey, configKey, sourceRevision, environmentKey,
                                  configKey, expectedRevision, expectedRevision);
    HasUpToCurrent(db, environmentKey, configKey, sourceRevision);
    HasUpToCurrent(db, environmentKey, configKey, expectedRevision);
    if 1 <= expectedRevision <= CurrentRevision(db, environmentKey, configKey) {
      TransferMeans(codec, db, request, "restore", false, newId);
    } else {
      InfeasibleRefused(codec, db, request, "restore", false, newId);
    }
  }

  ghost predicate RestoreTold(codec: Codec, db: Db, now: Db, operationId: string, actor: Actor,
                              environmentKey: string, configKey: string, sourceRevision: nat, expectedRevision: nat,
                              newId: string, reply: Reply) {
    && StoreWell(db) && FreshBy(db, operationId, actor) && NewConfigId(db, newId)
    && expectedRevision + 1 < UINT64_LIMIT && Restorable(codec, db, environmentKey, configKey, sourceRevision)
    ==> RestoreAnswers(codec, db, now, operationId, actor, environmentKey, configKey, sourceRevision,
                       expectedRevision, reply)
  }

  lemma RestoreTells(codec: Codec, db: Db, operationId: string, actor: Actor, environmentKey: string,
                     configKey: string, sourceRevision: nat, expectedRevision: nat, newId: string)
    ensures var request := ConfigTransfer(operationId, actor, environmentKey, configKey, sourceRevision,
                                          environmentKey, configKey, expectedRevision, expectedRevision);
            var (now, reply) := Transfer(codec, db, request, "restore", false, newId);
            RestoreTold(codec, db, now, operationId, actor, environmentKey, configKey, sourceRevision,
                        expectedRevision, newId, reply)
  {
    hide StoreWell, FreshBy, NewConfigId, Transfer, Restorable, RestoreAnswers;
    if && StoreWell(db) && FreshBy(db, operationId, actor) && NewConfigId(db, newId)
       && expectedRevision + 1 < UINT64_LIMIT && Restorable(codec, db, environmentKey, configKey, sourceRevision) {
      RestoreMeans(codec, db, operationId, actor, environmentKey, configKey, sourceRevision, expectedRevision, newId);
    }
  }

  // ----- Clones -----

  /** Keys are given and the revision to clone, or the current one, is available. */
  predicate Clonable(db: Db, request: ConfigClone) {
    && KeysGiven(request.sourceEnvironmentKey, request.sourceConfigKey, request.targetEnvironmentKey,
                 request.targetConfigKey)
    && Available(db, request.sourceEnvironmentKey, request.sourceConfigKey, ClonedRevision(db, request))
  }

  function ClonedRow(db: Db, request: ConfigClone): Revision
    requires Clonable(db, request)
  {
    Row(db, request.sourceEnvironmentKey, request.sourceConfigKey, ClonedRevision(db, request))
  }

  /** The name asked for, or that of the source. */
  function CloneName(db: Db, request: ConfigClone): string
    requires Clonable(db, request)
  {
    if request.targetConfigName == "" then db.configs[request.sourceConfigKey].name else request.targetConfigName
  }

  predicate CloneFor(db: Db, request: ConfigClone, commit: ConfigCommit, meta: Meta)
    requires Clonable(db, request)
  {
    && commit.operationId == request.operationId && commit.actor == request.actor
    && commit.environmentKey == request.targetEnvironmentKey && commit.configKey == request.targetConfigKey
    && commit.expectedRevision == 0 && commit.configName == CloneName(db, request)
    && commit.format == ClonedRow(db, request).format && commit.content == ClonedRow(db, request).content
    && meta.action == "clone" && meta.successEvent == "config.cloned" && meta.createOnly
    && meta.requestDigest == Some(CloneDigest(request))
    && meta.source == Some(Source(db.configs[request.sourceConfigKey].id,
                                  db.environments[request.sourceEnvironmentKey].id, ClonedRevision(db, request)))
  }

  /** A fresh clone goes on to its commit exactly when keys are given and its source is available. */
  lemma CloneReadyExactly(db: Db, request: ConfigClone)
    requires request.operationId !in db.operations
    ensures var prepared := PrepareClone(db, db, request);
            if Clonable(db, request) then prepared.Ready? && CloneFor(db, request, prepared.commit, prepared.meta)
            else prepared.Refusal? && !ConflictReason(prepared.failure.reason)
  {
    hide ValidResourceKey, ReadRevision, Has, Row, CurrentRevision;
    ReadMeans(db, request.sourceEnvironmentKey, request.sourceConfigKey, ClonedRevision(db, request));
  }

  function CloneRecord(request: ConfigClone, response: Response): Completion
    requires response.ConfigResult?
  {
    Completion(request.operationId, CloneDigest(request), request.actor, response, response.revision,
               match response.outcome
               case Success => "config.cloned"
               case NoChange => "config.clone." + "no_change"
               case Conflict => "config.clone." + "conflict"
               case ValidationFailed => "config.clone." + "validation_failed",
               "config.clone", request.targetEnvironmentKey, "config", request.targetConfigKey,
               response.outcome == Success)
  }

  /** What a fresh clone of an acceptable document answers and leaves: a conflict where there is a Config, and
      else its first revision. */
  ghost predicate CloneAnswers(codec: Codec, db: Db, now: Db, request: ConfigClone, reply: Reply)
    requires Clonable(db, request)
    requires codec.canonicalize(ClonedRow(db, request).format, ClonedRow(db, request).content).Some?
  {
    var source := ClonedRow(db, request);
    var document := codec.canonicalize(source.format, source.content).value;
    && reply.Returned? && reply.response.ConfigResult? && Told(db, now, CloneRecord(request, reply.response))
    && if request.targetConfigKey in db.configs then
         reply.response.outcome == Conflict && TablesUntouched(db, now)
       else
         && reply.response.outcome == Success && reply.response.revision == 1
         && request.targetEnvironmentKey in db.environments
         && WarnsExactly(db, db.environments[request.targetEnvironmentKey].id, document.references,
                         reply.response.warnings)
         && Placed(db, now, request.targetEnvironmentKey, request.targetConfigKey, 1,
                   Revision(source.format, document.content, document.references, request.operationId, request.actor,
                            Some(Source(db.configs[request.sourceConfigKey].id,
                                        db.environments[request.sourceEnvironmentKey].id,
                                        ClonedRevision(db, request)))),
                   CloneName(db, request))
  }

  lemma CloneCommits(codec: Codec, db: Db, request: ConfigClone, commit: ConfigCommit, meta: Meta, now: Db,
                     reply: Reply)
    requires Clonable(db, request) && CloneFor(db, request, commit, meta)
    requires Accepts(codec, commit) && Answers(codec, db, db, now, commit, meta, reply) && reply.Returned?
    requires reply.response.outcome == (if !Expected(db, commit, meta) then Conflict
                                        else if Unchanged(codec, db, commit) then NoChange else Success)
    requires if reply.response.outcome == Success
             then OneRevisionAdded(codec, db, now, commit, meta) && Puts(codec, now, commit, meta)
             else TablesUntouched(db, now)
    ensures CloneAnswers(codec, db, now, request, reply)
  {
    hide Accepts, Told, FailsFor, WarnsExactly, ClonedRow, TablesUntouched, Clonable;
    Dotted();
    assert CommitRecord(commit, meta, reply.response) == CloneRecord(request, reply.response);
  }

  lemma Dotted()
    ensures forall s: string :: "config." + "clone" + "." + s == "config.clone." + s
    ensures "config." + "clone" == "config.clone"
  {
    assert "config." + "clone" + "." == "config.clone.";
  }

  lemma CloneMeans(codec: Codec, db: Db, request: ConfigClone, newId: string)
    requires StoreWell(db) && FreshBy(db, request.operationId, request.actor) && NewConfigId(db, newId)
    requires Clonable(db, request) && 0 < |CloneName(db, request)| <= 255
    requires codec.canonicalize(ClonedRow(db, request).format, ClonedRow(db, request).content).Some?
    requires Open(db, request.targetEnvironmentKey, request.targetConfigKey)
    ensures var (now, reply) := Clone(codec, db, request, newId);
            CloneAnswers(codec, db, now, request, reply)
  {
    hide StoreWell, ValidOperationId, ValidActor, NewConfigId, PrepareClone, CommitAt, Answers, CloneAnswers, Expected,
         Unchanged, OneRevisionAdded, Puts, TablesUntouched, Active, ClonedRow, ValidResourceKey, Available;
    CloneReadyExactly(db, request);
    var prepared := PrepareClone(db, db, request);
    var (now, reply) := CommitAt(codec, db, db, prepared.commit, prepared.meta, newId);
    CommitSettles(codec, db, prepared.commit, prepared.meta, newId);
    CloneCommits(codec, db, request, prepared.commit, prepared.meta, now, reply);
  }

  lemma CloneRefused(codec: Codec, db: Db, request: ConfigClone, newId: string)
    requires FreshBy(db, request.operationId, request.actor) && !Clonable(db, request)
    ensures var (now, reply) := Clone(codec, db, request, newId);
            && reply.Returned? && reply.response.ConfigResult? && reply.response.outcome == ValidationFailed
            && Told(db, now, CloneRecord(request, reply.response)) && TablesUntouched(db, now)
  {
    hide ValidOperationId, ValidActor, PrepareClone, Clonable, Told, TablesUntouched, RejectTransfer;
    CloneReadyExactly(db, request);
    var prepared := PrepareClone(db, db, request);
    var shell, meta := CloneShell(request), CloneMeta(request);
    RefusalMeans(db, shell, meta, prepared.failure);
    Dotted();
    var response := RejectTransfer(db, shell, meta, prepared.failure).1.response;
    assert CommitRecord(shell, meta, response) == CloneRecord(request, response);
  }

  /** A fresh clone is answered like this when its document and name are acceptable, and refused when its source is
      not available. */
  ghost predicate CloneTold(codec: Codec, db: Db, now: Db, request: ConfigClone, newId: string, reply: Reply) {
    StoreWell(db) && FreshBy(db, request.operationId, request.actor) && NewConfigId(db, newId) ==>
      if Clonable(db, request) then
        && 0 < |CloneName(db, request)| <= 255
        && codec.canonicalize(ClonedRow(db, request).format, ClonedRow(db, request).content).Some?
        && Open(db, request.targetEnvironmentKey, request.targetConfigKey)
        ==> CloneAnswers(codec, db, now, request, reply)
      else
        && reply.Returned? && reply.response.ConfigResult? && reply.response.outcome == ValidationFailed
        && Told(db, now, CloneRecord(request, reply.response)) && TablesUntouched(db, now)
  }

  lemma CloneTells(codec: Codec, db: Db, request: ConfigClone, newId: string)
    ensures var (now, reply) := Clone(codec, db, request, newId);
            CloneTold(codec, db, now, request, newId, reply)
  {
    hide StoreWell, FreshBy, NewConfigId, Clone, Open, Clonable, CloneAnswers, Told, TablesUntouched, CloneName,
         ClonedRow;
    if StoreWell(db) && FreshBy(db, request.operationId, request.actor) && NewConfigId(db, newId) {
      if !Clonable(db, request) {
        CloneRefused(codec, db, request, newId);
      } else if && 0 < |CloneName(db, request)| <= 255
                && codec.canonicalize(ClonedRow(db, request).format, ClonedRow(db, request).content).Some?
                && Open(db, request.targetEnvironmentKey, request.targetConfigKey) {
        CloneMeans(codec, db, request, newId);
      }
    }
  }

  // ----- Previews -----

  /** A preview with nothing in between shows the document that the transfer would commit, exactly when the pinned
      revisions are there, the target is available now, and the source is readable and, if asked for, mergeable. */
  lemma PreviewMeans(codec: Codec, db: Db, merge: bool, sourceEnvironment: string, sourceConfig: string,
                     sourceRevision: nat, targetEnvironment: string, targetConfig: string, targetRevision: nat)
    requires sourceEnvironment != "" && sourceConfig != "" && sourceRevision > 0 && targetRevision > 0
    ensures var previewed := PreviewTransfer(codec, db, db, db, merge, sourceEnvironment, sourceConfig,
                                             sourceRevision, targetEnvironment, targetConfig, targetRevision);
            var current := CurrentRevision(db, targetEnvironment, targetConfig);
            if !(Has(db, sourceEnvironment, sourceConfig, sourceRevision)
                 && Has(db, targetEnvironment, targetConfig, targetRevision)
                 && Available(db, targetEnvironment, targetConfig, current)) then previewed == NotFound
            else
              var source := Row(db, sourceEnvironment, sourceConfig, sourceRevision);
              var target := Row(db, targetEnvironment, targetConfig, targetRevision);
              var canonical := codec.canonicalize(source.format, source.content);
              if (merge && source.format != target.format) || canonical.None? then previewed == Unprocessable
              else
                var merged := codec.merge(source.format, canonical.value.content, target.content);
                if !merge then previewed == Preview(source.format, canonical.value.content, current)
                else if merged.None? then previewed == Unprocessable
                else previewed == Preview(source.format, merged.value.content, current)
  {
    hide ReadRevision, Has, Row, CurrentRevision;
    ReadMeans(db, sourceEnvironment, sourceConfig, sourceRevision);
    ReadMeans(db, targetEnvironment, targetConfig, targetRevision);
    ReadMeans(db, targetEnvironment, targetConfig, CurrentRevision(db, targetEnvironment, targetConfig));
  }
}
