/** Merge, replace, restore and clone: read pinned revisions, build a commit, and commit it later.
    Models internal/storage/mysqlstore/config_transfer.go, replayConfigOperation of config_failure.go
    and previewConfigTransfer of internal/management/http.go. */
module Transfers {
  import opened Ordering
  import opened References
  import opened ConfigStore
  import opened StoreInvariants
  import opened StoreSteps
  import opened CommitViews
  import opened StoreRuns
  import opened StoredContents
  import opened StoreGuarantees

  datatype Snapshot = Snapshot(active: bool, configId: string, environmentId: string, displayName: string,
                               format: string,
                               content: string)

  /** readConfigRevisionIncludingArchived. */
  function ReadRevision(db: Db, environmentKey: string, configKey: string, revision: nat): Option<Snapshot> {
    if environmentKey !in db.environments || configKey !in db.configs then None
    else
      var environment, config := db.environments[environmentKey], db.configs[configKey];
      var id := RevisionId(Binding(config.id, environment.id), revision);
      if id !in db.revisions then None
      else Some(Snapshot(!config.archived && !environment.archived, config.id, environment.id, config.name,
                         db.revisions[id].format, db.revisions[id].content))
  }

  /** readConfigRevision. */
  function ReadActiveRevision(db: Db, environmentKey: string, configKey: string, revision: nat): Option<Snapshot> {
    var snapshot := ReadRevision(db, environmentKey, configKey, revision);
    if snapshot.Some? && !snapshot.value.active then None else snapshot
  }

  /** replayConfigOperation: only the request's own digest is accepted. */
  function ReplayOperation(db: Db, id: string, digest: Digest): Option<Reply> {
    if id !in db.operations || db.operations[id].digest != digest then None
    else if db.operations[id].progress.Pending? then Some(Failed(ReplayCorrupt))
    else Some(ReplayReply(db.operations[id].progress.outcome, db.operations[id].progress.response))
  }

  /** validateConfigTransferKeys. */
  function InvalidKey(sourceEnvironment: string, sourceConfig: string, targetEnvironment: string,
                      targetConfig: string): Option<Failure> {
    if !ValidResourceKey(sourceEnvironment) then Some(Failure("source_environment", "source_environment_invalid"))
    else if !ValidResourceKey(sourceConfig) then Some(Failure("source_config", "source_config_invalid"))
    else if !ValidResourceKey(targetEnvironment) then Some(Failure("target_environment", "target_environment_invalid"))
    else if !ValidResourceKey(targetConfig) then Some(Failure("target_config", "target_config_invalid"))
    else None
  }

  /** How a transfer goes on after its reads. */
  datatype Prepared =
    | Answer(reply: Reply)
    | Refusal(failure: Failure)
    | Ready(commit: ConfigCommit, meta: Meta)

  /** The commit and meta a transfer starts from; rejections record only these fields. */
  function TransferShell(request: ConfigTransfer): ConfigCommit {
    ConfigCommit(request.operationId, request.actor, request.targetEnvironmentKey, request.targetConfigKey, "",
                 request.expectedTargetRevision, "", "")
  }

  function TransferMeta(request: ConfigTransfer, action: string): Meta {
    Meta(action, "config." + action + "d", None, Some(TransferDigest(action, request)), None, false)
  }

  predicate CreatesTarget(request: ConfigTransfer, action: string) {
    action == "replace" && request.targetRevision == 0 && request.expectedTargetRevision == 0
  }

  /** The checks that come before any revision is read. */
  function TransferPreconditions(request: ConfigTransfer, action: string): Option<Failure> {
    var invalid := InvalidKey(request.sourceEnvironmentKey, request.sourceConfigKey, request.targetEnvironmentKey,
                              request.targetConfigKey);
    if invalid.Some? then invalid
    else if request.sourceRevision == 0 then Some(Failure("source_revision", "source_revision_required"))
    else if !CreatesTarget(request, action) && (request.targetRevision == 0 || request.expectedTargetRevision == 0) then
      Some(Failure("target_revision", "target_revision_required"))
    else None
  }

  /** The commit for a source, before its content is merged. */
  function FromSource(request: ConfigTransfer, source: Snapshot): ConfigCommit {
    TransferShell(request).(configName := source.displayName, format := source.format, content := source.content)
  }

  function SourcedMeta(request: ConfigTransfer, action: string, source: Snapshot): Meta {
    TransferMeta(request, action).(source := Some(Source(source.configId, source.environmentId,
                                                         request.sourceRevision)))
  }

  datatype Content = Content(content: string) | Unmergeable(failure: Failure)

  function ContentFor(codec: Codec, merge: bool, source: Snapshot, target: Snapshot): Content {
    if !merge then Content(source.content)
    else if target.format != source.format then Unmergeable(Failure("target_revision", "config_format_mismatch"))
    else
      match codec.merge(source.format, source.content, target.content)
      case None => Unmergeable(Failure("content", "config_document_invalid"))
      case Some(merged) => Content(merged.content)
  }

  /** transferConfig up to its last step. The four reads see the database at four moments: `first` for
      the replay check, then one each for the source, the target and the old-style replay check. */
  function PrepareTransfer(codec: Codec, first: Db, atSource: Db, atTarget: Db, atReplay: Db,
                           request: ConfigTransfer, action: string, merge: bool): Prepared {
    var replay := ReplayOperation(first, request.operationId, TransferDigest(action, request));
    if replay.Some? then Answer(replay.value)
    else if TransferPreconditions(request, action).Some? then Refusal(TransferPreconditions(request, action).value)
    else
      var source := ReadRevision(atSource, request.sourceEnvironmentKey, request.sourceConfigKey,
                                 request.sourceRevision);
      if source.None? then Refusal(Failure("source_revision", "source_revision_unavailable"))
      else if CreatesTarget(request, action) then
        if !source.value.active then Refusal(Failure("source_revision", "source_revision_unavailable"))
        else Ready(FromSource(request, source.value), SourcedMeta(request, action, source.value))
      else
        var target := ReadRevision(atTarget, request.targetEnvironmentKey, request.targetConfigKey,
                                   request.targetRevision);
        if target.None? then Refusal(Failure("target_revision", "target_revision_unavailable"))
        else
          var content := ContentFor(codec, merge, source.value, target.value);
          if content.Unmergeable? then Refusal(content.failure)
          else
            var commit := FromSource(request, source.value).(content := content.content);
            var meta := SourcedMeta(request, action, source.value);
            var legacy := CommitDigest(commit, meta.action, meta.source, meta.createOnly);
            var earlier := ReplayOperation(atReplay, request.operationId, legacy);
            if earlier.Some? then Answer(earlier.value)
            else if !source.value.active then Refusal(Failure("source_revision", "source_revision_unavailable"))
            else if !target.value.active then Refusal(Failure("target_revision", "target_revision_unavailable"))
            else Ready(commit, meta.(legacyDigest := Some(legacy)))
  }

  /** Carrying out a prepared transfer in a (later) state; its commit may read from some moment in between. */
  function CarryOut(codec: Codec, view: Db, db: Db, prepared: Prepared, shell: ConfigCommit, meta: Meta, newId: string)
    : (Db, Reply)
  {
    match prepared
    case Answer(reply) => (db, reply)
    case Refusal(failure) => RejectTransfer(db, shell, meta, failure)
    case Ready(commit, ready) => CommitAt(codec, view, db, commit, ready, newId)
  }

  /** transferConfig with nothing happening in between. */
  function Transfer(codec: Codec, db: Db, request: ConfigTransfer, action: string, merge: bool, newId: string)
    : (Db, Reply)
  {
    if !ValidOperationId(request.operationId) || !ValidActor(request.actor) then (db, Failed(InvalidRequest))
    else CarryOut(codec, db, db, PrepareTransfer(codec, db, db, db, db, request, action, merge), TransferShell(request),
                  TransferMeta(request, action), newId)
  }

  // ----- Clone -----

  function CloneShell(request: ConfigClone): ConfigCommit {
    ConfigCommit(request.operationId, request.actor, request.targetEnvironmentKey, request.targetConfigKey,
                 request.targetConfigName, 0, "", "")
  }

  function CloneMeta(request: ConfigClone): Meta {
    Meta("clone", "config.cloned", None, Some(CloneDigest(request)), None, true)
  }

  function PrepareClone(first: Db, atSource: Db, request: ConfigClone): Prepared {
    var replay := ReplayOperation(first, request.operationId, CloneDigest(request));
    var invalid := InvalidKey(request.sourceEnvironmentKey, request.sourceConfigKey, request.targetEnvironmentKey,
                              request.targetConfigKey);
    if replay.Some? then Answer(replay.value)
    else if invalid.Some? then Refusal(invalid.value)
    else
      var revision := if request.sourceRevision == 0 then
          CurrentRevision(atSource, request.sourceEnvironmentKey, request.sourceConfigKey)
                      else request.sourceRevision;
      match ReadActiveRevision(atSource, request.sourceEnvironmentKey, request.sourceConfigKey, revision)
      case None => Refusal(Failure("source_revision", "source_revision_unavailable"))
      case Some(source) =>
        Ready(CloneShell(request).(format := source.format, content := source.content,
                                   configName := if request.targetConfigName == "" then source.displayName
                                       else request.targetConfigName),
              CloneMeta(request).(source := Some(Source(source.configId, source.environmentId, revision))))
  }

  function Clone(codec: Codec, db: Db, request: ConfigClone, newId: string): (Db, Reply) {
    if !ValidOperationId(request.operationId) || !ValidActor(request.actor) then (db, Failed(InvalidRequest))
    else CarryOut(codec, db, db, PrepareClone(db, db, request), CloneShell(request), CloneMeta(request), newId)
  }

  // ----- Transfers are commit or refusal steps -----

  lemma PreparedTransferIsStep(codec: Codec, a: Db, b: Db, c: Db, d: Db, request: ConfigTransfer, action: string,
                              merge: bool, view: Db, db: Db, newId: string)
    requires SeenBefore(view, db)
    ensures match PrepareTransfer(codec, a, b, c, d, request, action, merge)
            case Answer(_) => true
            case Refusal(failure) => Enabled(db, Refuse(TransferShell(request), TransferMeta(request, action), failure))
            case Ready(commit, meta) => Enabled(db, Commit(commit, meta, newId, view))
  {
    hide ValidResourceKey, ReadRevision, ReplayOperation, SeenBefore;
  }

  lemma PreparedCloneIsStep(a: Db, b: Db, request: ConfigClone, view: Db, db: Db, newId: string)
    requires SeenBefore(view, db)
    ensures match PrepareClone(a, b, request)
            case Answer(_) => true
            case Refusal(failure) => Enabled(db, Refuse(CloneShell(request), CloneMeta(request), failure))
            case Ready(commit, meta) => Enabled(db, Commit(commit, meta, newId, view))
  {
    hide ValidResourceKey, ReadRevision, ReplayOperation, CurrentRevision;
  }

  // ----- Preview -----

  datatype Previewed = NotFound | Unprocessable | Preview(format: string, content: string, expectedTargetRevision: nat)

  /** previewConfigTransfer; its three reads also see three moments. */
  function PreviewTransfer(codec: Codec, atSource: Db, atTarget: Db, atCurrent: Db, merge: bool,
                           sourceEnvironment: string, sourceConfig: string, sourceRevision: nat,
                           targetEnvironment: string, targetConfig: string, targetRevision: nat): Previewed {
    if sourceEnvironment == "" || sourceConfig == "" || sourceRevision == 0 || targetRevision == 0 then Unprocessable
    else
      var source := ReadRevision(atSource, sourceEnvironment, sourceConfig, sourceRevision);
      var target := ReadRevision(atTarget, targetEnvironment, targetConfig, targetRevision);
      var current := CurrentRevision(atCurrent, targetEnvironment, targetConfig);
      if source.None? || target.None? || ReadActiveRevision(atCurrent, targetEnvironment, targetConfig,
                                                            current).None? then NotFound
      else if merge && source.value.format != target.value.format then Unprocessable
      else
        match codec.canonicalize(source.value.format, source.value.content)
        case None => Unprocessable
        case Some(canonical) =>
          if !merge then Preview(source.value.format, canonical.content, current)
          else
            match codec.merge(source.value.format, canonical.content, target.value.content)
            case None => Unprocessable
            case Some(merged) => Preview(source.value.format, merged.content, current)
  }

  /** A pinned revision reads the same in every state of a run that has it. */
  lemma PinnedRevision(codec: Codec, states: seq<Db>, steps: seq<Step>, i: nat, j: nat, environmentKey: string,
                       configKey: string, revision: nat)
    requires IsRun(codec, states, steps) && DbWell(states[0]) && i < |states| && j < |states|
    requires ReadRevision(states[i], environmentKey, configKey, revision).Some?
    requires ReadRevision(states[j], environmentKey, configKey, revision).Some?
    ensures ReadRevision(states[i], environmentKey, configKey, revision).value.(active := true)
         == ReadRevision(states[j], environmentKey, configKey, revision).value.(active := true)
  {
    hide DbWell, OperationsExtend, VaultExtends;
    if i <= j {
      RunKeeps(codec, states, steps, i, j);
    } else {
      RunKeeps(codec, states, steps, j, i);
    }
  }

  lemma PinnedIsCanonical(codec: Codec, db: Db, environmentKey: string, configKey: string, revision: nat)
    requires ReadRevision(db, environmentKey, configKey, revision).Some?
    requires CanonicalIn(codec, db, ReadRevision(db, environmentKey, configKey, revision).value.format)
    ensures var snapshot := ReadRevision(db, environmentKey, configKey, revision).value;
            var canonical := codec.canonicalize(snapshot.format, snapshot.content);
            canonical.Some? && canonical.value.content == snapshot.content
  {
    var id := RevisionId(Binding(db.configs[configKey].id, db.environments[environmentKey].id), revision);
    assert CanonicalRevision(codec, db.revisions[id]);
  }

  /** The engine is lawful in this format, and so far all stored documents of the format are canonical. */
  ghost predicate Lawful(codec: Codec, db: Db, format: string) {
    FormatLaws(codec, format) && CanonicalIn(codec, db, format)
  }

  /** The content a transfer is about to commit is the previewed one, and is canonical. */
  lemma PreparedContent(codec: Codec, states: seq<Db>, steps: seq<Step>, p: nat, q: nat, r: nat, a: nat, b: nat,
                        c: nat, d: nat,
                        request: ConfigTransfer, action: string, merge: bool)
    requires IsRun(codec, states, steps) && DbWell(states[0])
    requires p < |states| && q < |states| && r < |states| && a < |states| && b < |states| && c < |states|
    requires d < |states|
    requires PreviewOf(codec, states[p], states[q], states[r], request, merge).Preview?
    requires Lawful(codec, states[0], PreviewOf(codec, states[p], states[q], states[r], request, merge).format)
    requires PrepareTransfer(codec, states[a], states[b], states[c], states[d], request, action, merge).Ready?
    ensures var preview := PreviewOf(codec, states[p], states[q], states[r], request, merge);
            var commit := PrepareTransfer(codec, states[a], states[b], states[c], states[d], request, action,
                                          merge).commit;
            commit.format == preview.format && commit.content == preview.content
            && codec.canonicalize(commit.format, commit.content).Some?
            && codec.canonicalize(commit.format, commit.content).value.content == preview.content
            && commit.environmentKey == request.targetEnvironmentKey && commit.configKey == request.targetConfigKey
  {
    hide DbWell, IsRun, ReadRevision, ReplayOperation, InvalidKey, CurrentRevision;
    PinnedRevision(codec, states, steps, p, b, request.sourceEnvironmentKey, request.sourceConfigKey,
                   request.sourceRevision);
    RunKeepsCanonical(codec, states, steps, p, PreviewOf(codec, states[p], states[q], states[r], request,
                                                         merge).format);
    PinnedIsCanonical(codec, states[p], request.sourceEnvironmentKey, request.sourceConfigKey, request.sourceRevision);
    PinnedRevision(codec, states, steps, q, c, request.targetEnvironmentKey, request.targetConfigKey,
                   request.targetRevision);
    var source := ReadRevision(states[p], request.sourceEnvironmentKey, request.sourceConfigKey,
                               request.sourceRevision).value;
    var target := ReadRevision(states[q], request.targetEnvironmentKey, request.targetConfigKey,
                               request.targetRevision).value;
    LawsAt(codec, source.format, source.content, target.content);
  }

  lemma LawsAt(codec: Codec, format: string, source: string, target: string)
    requires FormatLaws(codec, format)
    ensures CanonicalFixed(codec, format, source) && MergeLaw(codec, format, source, target)
  {
    hide CanonicalFixed, MergeLaw;
  }

  function PreviewOf(codec: Codec, atSource: Db, atTarget: Db, atCurrent: Db, request: ConfigTransfer,
                     merge: bool): Previewed {
    PreviewTransfer(codec, atSource, atTarget, atCurrent, merge, request.sourceEnvironmentKey, request.sourceConfigKey,
                    request.sourceRevision, request.targetEnvironmentKey, request.targetConfigKey,
                        request.targetRevision)
  }

  /** What was previewed is what is committed: if a transfer of the same pinned revisions later succeeds
      or reports no change, whatever ran in between its reads and its commit, the target's current
      document has the previewed format and content. The document engine must be lawful in the format at
      hand, and no other. */
  lemma PreviewIsCommitted(codec: Codec, states: seq<Db>, steps: seq<Step>, p: nat, q: nat, r: nat, a: nat, b: nat,
                           c: nat, d: nat, v: nat, k: nat, request: ConfigTransfer, action: string, merge: bool,
                           newId: string)
    requires IsRun(codec, states, steps) && DbWell(states[0])
    requires p < |states| && q < |states| && r < |states| && a < |states| && b < |states| && c < |states|
    requires d < |states| && v <= k < |states|
    requires PreviewOf(codec, states[p], states[q], states[r], request, merge).Preview?
    requires Lawful(codec, states[0], PreviewOf(codec, states[p], states[q], states[r], request, merge).format)
    requires PrepareTransfer(codec, states[a], states[b], states[c], states[d], request, action, merge).Ready?
    requires request.operationId !in states[k].operations
    ensures var preview := PreviewOf(codec, states[p], states[q], states[r], request, merge);
            var ready := PrepareTransfer(codec, states[a], states[b], states[c], states[d], request, action, merge);
            var (now, reply) := CommitAt(codec, states[v], states[k], ready.commit, ready.meta, newId);
            reply.Returned? && (reply.response.outcome == Success || reply.response.outcome == NoChange) ==>
              var current := CurrentDocument(now, request.targetEnvironmentKey, request.targetConfigKey);
              current.Some? && current.value.format == preview.format && current.value.content == preview.content
  {
    hide DbWell, IsRun, PreviewTransfer, CommitAt, SeenBefore, StoreWell, CurrentDocument, Validate;
    PreparedContent(codec, states, steps, p, q, r, a, b, c, d, request, action, merge);
    RunKeeps(codec, states, steps, k, k);
    StorePart(states[k]);
    var ready := PrepareTransfer(codec, states[a], states[b], states[c], states[d], request, action, merge);
    EarlierIsView(codec, states, steps, v, k);
    CommittedContent(codec, states[v], states[k], ready.commit, ready.meta, newId);
  }

  /** The current document is the request's, canonical. */
  predicate HoldsCanonical(codec: Codec, db: Db, request: ConfigCommit) {
    var current := CurrentDocument(db, request.environmentKey, request.configKey);
    var canonical := codec.canonicalize(request.format, request.content);
    && current.Some? && current.value.format == request.format
    && canonical.Some? && current.value.content == canonical.value.content
  }

  lemma PromptCommittedContent(codec: Codec, db: Db, request: ConfigCommit, meta: Meta, newId: string)
    requires StoreWell(db) && request.operationId !in db.operations
    ensures var (now, reply) := CommitConfig(codec, db, request, meta, newId);
            reply.Returned? && (reply.response.outcome == Success || reply.response.outcome == NoChange) ==>
              HoldsCanonical(codec, now, request)
  {
    hide StoreWell, Validate, Finish, Decide, Contiguous, BindingsWell, ValidOperationId, DigestOf, CommitConfig;
    Histories(db);
    PromptCommitEffect(codec, db, request, meta, newId);
    var (now, reply) := CommitConfig(codec, db, request, meta, newId);
    if reply.Returned? && reply.response.outcome == Success {
      ValidKeys(codec, request);
    } else if reply.Returned? && reply.response.outcome == NoChange {
      KeptDecision(codec, db, request, meta, newId);
      DecideKeeps(codec, db, request, meta, newId);
      ValidKeys(codec, request);
    }
  }

  /** After a commit that succeeded or changed nothing, the current document is the request's, canonical. */
  lemma CommittedContent(codec: Codec, view: Db, db: Db, request: ConfigCommit, meta: Meta, newId: string)
    requires StoreWell(db) && SeenBefore(view, db) && request.operationId !in db.operations
    ensures var (now, reply) := CommitAt(codec, view, db, request, meta, newId);
            reply.Returned? && (reply.response.outcome == Success || reply.response.outcome == NoChange) ==>
              HoldsCanonical(codec, now, request)
  {
    hide StoreWell, SeenBefore, AsSeen, CommitAt, CommitConfig, Overtaken, Restored, HoldsCanonical;
    var key := request.environmentKey;
    LateCommit(codec, view, db, request, meta, newId);
    AsSeenWell(view, db, key);
    SameOperations(view, db, key);
    PromptCommittedContent(codec, AsSeen(view, db, key), request, meta, newId);
    CommitEnvironments(codec, AsSeen(view, db, key), request, meta, newId);
    RestoredDocument(codec, view, db, request, CommitConfig(codec, AsSeen(view, db, key), request, meta, newId).0);
  }

  lemma RestoredDocument(codec: Codec, view: Db, db: Db, request: ConfigCommit, now: Db)
    requires now.environments == AsSeen(view, db, request.environmentKey).environments
    ensures HoldsCanonical(codec, now, request) ==> HoldsCanonical(codec, Restored(now, db), request)
  {
    hide Active;
  }

  lemma KeptDecision(codec: Codec, db: Db, request: ConfigCommit, meta: Meta, newId: string)
    requires StoreWell(db) && request.operationId !in db.operations
    requires CommitConfig(codec, db, request, meta, newId).1.Returned?
    requires CommitConfig(codec, db, request, meta, newId).1.response.outcome == NoChange
    ensures Decide(db, request, meta, Validate(codec, request), newId).Keep?
  {
    hide StoreWell, Validate, Finish, Decide, ValidOperationId, DigestOf;
    RejectionsClassified(codec, db, request, meta, newId);
  }

  /** Replace and restore put the pinned source revision's document in place, unchanged. */
  lemma SourceIsCommitted(codec: Codec, states: seq<Db>, steps: seq<Step>, a: nat, b: nat, c: nat, d: nat, v: nat,
                          k: nat, request: ConfigTransfer, action: string, newId: string)
    requires IsRun(codec, states, steps) && DbWell(states[0])
    requires a < |states| && b < |states| && c < |states| && d < |states| && v <= k < |states|
    requires PrepareTransfer(codec, states[a], states[b], states[c], states[d], request, action, false).Ready?
    requires request.operationId !in states[k].operations
    requires Lawful(codec, states[0], PrepareTransfer(codec, states[a], states[b], states[c], states[d], request,
                                                      action, false).commit.format)
    ensures var source := ReadRevision(states[b], request.sourceEnvironmentKey, request.sourceConfigKey,
                                       request.sourceRevision);
            var ready := PrepareTransfer(codec, states[a], states[b], states[c], states[d], request, action, false);
            var (now, reply) := CommitAt(codec, states[v], states[k], ready.commit, ready.meta, newId);
            source.Some? &&
            (reply.Returned? && (reply.response.outcome == Success || reply.response.outcome == NoChange) ==>
               var current := CurrentDocument(now, request.targetEnvironmentKey, request.targetConfigKey);
               current.Some? && current.value.format == source.value.format
                   && current.value.content == source.value.content)
  {
    hide DbWell, IsRun, CommitAt, SeenBefore, StoreWell, CurrentDocument, ReadRevision, ReplayOperation, InvalidKey;
    var ready := PrepareTransfer(codec, states[a], states[b], states[c], states[d], request, action, false);
    RunKeepsCanonical(codec, states, steps, b, ready.commit.format);
    RunKeeps(codec, states, steps, k, k);
    StorePart(states[k]);
    PinnedIsCanonical(codec, states[b], request.sourceEnvironmentKey, request.sourceConfigKey, request.sourceRevision);
    EarlierIsView(codec, states, steps, v, k);
    CommittedContent(codec, states[v], states[k], ready.commit, ready.meta, newId);
  }

  /** The revision a clone copies: the one asked for, or the current one at the moment of reading. */
  function ClonedRevision(db: Db, request: ConfigClone): nat {
    if request.sourceRevision == 0 then CurrentRevision(db, request.sourceEnvironmentKey, request.sourceConfigKey)
    else request.sourceRevision
  }

  /** So does a clone, and it only ever creates its target. */
  lemma CloneIsCommitted(codec: Codec, states: seq<Db>, steps: seq<Step>, a: nat, b: nat, v: nat, k: nat,
                         request: ConfigClone, newId: string)
    requires IsRun(codec, states, steps) && DbWell(states[0]) && a < |states| && b < |states| && v <= k < |states|
    requires PrepareClone(states[a], states[b], request).Ready? && request.operationId !in states[k].operations
    requires Lawful(codec, states[0], PrepareClone(states[a], states[b], request).commit.format)
    ensures var source := ReadRevision(states[b], request.sourceEnvironmentKey, request.sourceConfigKey,
                                       ClonedRevision(states[b], request));
            var ready := PrepareClone(states[a], states[b], request);
            var (now, reply) := CommitAt(codec, states[v], states[k], ready.commit, ready.meta, newId);
            source.Some? &&
            (reply.Returned? && reply.response.outcome == Success ==>
               var current := CurrentDocument(now, request.targetEnvironmentKey, request.targetConfigKey);
               && current.Some? && current.value.format == source.value.format
                   && current.value.content == source.value.content
               && request.targetConfigKey !in states[k].configs)
  {
    hide DbWell, IsRun, CommitAt, SeenBefore, StoreWell, CurrentDocument, ReadRevision, ReplayOperation, InvalidKey,
         CurrentRevision;
    var ready := PrepareClone(states[a], states[b], request);
    RunKeepsCanonical(codec, states, steps, b, ready.commit.format);
    RunKeeps(codec, states, steps, k, k);
    StorePart(states[k]);
    PinnedIsCanonical(codec, states[b], request.sourceEnvironmentKey, request.sourceConfigKey,
                      ClonedRevision(states[b], request));
    EarlierIsView(codec, states, steps, v, k);
    CommittedContent(codec, states[v], states[k], ready.commit, ready.meta, newId);
    if request.targetConfigKey in states[k].configs {
      CreatesOnly(codec, states[v], states[k], ready.commit, ready.meta, newId);
    }
  }

  lemma CreatesOnly(codec: Codec, view: Db, db: Db, request: ConfigCommit, meta: Meta, newId: string)
    requires meta.createOnly && request.operationId !in db.operations && request.configKey in db.configs
    ensures var reply := CommitAt(codec, view, db, request, meta, newId).1;
            reply.Returned? ==> reply.response.outcome != Success
  {
    hide Finish, DigestOf, Validate, ValidOperationId;
  }

  /** A fresh transfer goes on to its commit exactly when its keys and revisions are given, source and target
      are there and active, and a merge of them is possible; otherwise it is refused. */
  lemma TransferReadyExactly(codec: Codec, db: Db, request: ConfigTransfer, action: string, merge: bool)
    requires request.operationId !in db.operations
    ensures var source := ReadRevision(db, request.sourceEnvironmentKey, request.sourceConfigKey,
                                       request.sourceRevision);
            var target := ReadRevision(db, request.targetEnvironmentKey, request.targetConfigKey,
                                       request.targetRevision);
            var creates := CreatesTarget(request, action);
            var prepared := PrepareTransfer(codec, db, db, db, db, request, action, merge);
            && !prepared.Answer?
            && (prepared.Ready? <==>
                  && ValidResourceKey(request.sourceEnvironmentKey) && ValidResourceKey(request.sourceConfigKey)
                  && ValidResourceKey(request.targetEnvironmentKey) && ValidResourceKey(request.targetConfigKey)
                  && request.sourceRevision > 0
                  && (creates || (request.targetRevision > 0 && request.expectedTargetRevision > 0))
                  && source.Some? && source.value.active
                  && (creates || (target.Some? && target.value.active
                                  && (merge ==> target.value.format == source.value.format
                                                && codec.merge(source.value.format, source.value.content,
                                                               target.value.content).Some?))))
  {
    hide ValidResourceKey, ReadRevision;
  }
}
