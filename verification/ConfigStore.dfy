/** The mutation protocol of Configs and Environments: one database transaction per request, made
    idempotent by its OperationID. Models internal/storage/mysqlstore/config_mutation.go,
    config_lifecycle.go, environment_mutation.go and config_failure.go. A digest is the digested
    request itself (SHA-256 taken as injective); each committed transaction is one step. */
module ConfigStore {
  import opened Ordering
  import opened References
  import opened Encoding
  import opened VaultCrypto
  import KeyRotation
  import Etags

  // ----- Requests -----

  datatype Actor = Actor(kind: string, id: string)

  datatype ConfigCommit = ConfigCommit(operationId: string, actor: Actor, environmentKey: string, configKey: string,
                                       configName: string, expectedRevision: nat, format: string, content: string)

  datatype ConfigTransfer = ConfigTransfer(operationId: string, actor: Actor, sourceEnvironmentKey: string,
                                           sourceConfigKey: string, sourceRevision: nat, targetEnvironmentKey: string,
                                           targetConfigKey: string, targetRevision: nat, expectedTargetRevision: nat)

  datatype ConfigClone = ConfigClone(operationId: string, actor: Actor, sourceEnvironmentKey: string,
                                     sourceConfigKey: string, targetEnvironmentKey: string, targetConfigKey: string,
                                     targetConfigName: string, sourceRevision: nat)

  datatype LifecycleChange = LifecycleChange(operationId: string, actor: Actor, action: string, key: string)

  datatype EnvironmentChange = EnvironmentChange(operationId: string, actor: Actor, action: string, key: string,
                                                 displayName: string)

  datatype Source = Source(configId: string, environmentId: string, revision: nat)

  datatype Digest =
    | CommitDigest(commit: ConfigCommit, action: string, source: Option<Source>, createOnly: bool)
    | TransferDigest(transferAction: string, transfer: ConfigTransfer)
    | CloneDigest(clone: ConfigClone)
    | LifecycleDigest(lifecycle: LifecycleChange)
    | EnvironmentDigest(environment: EnvironmentChange)

  datatype Meta = Meta(action: string, successEvent: string, source: Option<Source>, requestDigest: Option<Digest>,
                       legacyDigest: Option<Digest>, createOnly: bool)

  // ----- Results -----

  datatype Outcome = Success | NoChange | Conflict | ValidationFailed

  function OutcomeText(outcome: Outcome): string {
    match outcome
    case Success => "success"
    case NoChange => "no_change"
    case Conflict => "conflict"
    case ValidationFailed => "validation_failed"
  }

  datatype ErrorClass = NoError | ErrConflict | ErrValidation

  datatype Failure = Failure(field: string, reason: string) {
    /** ConfigMutationError.Unwrap. */
    function Class(): ErrorClass {
      if reason == "clone_target_exists" || reason == "target_config_exists" || reason == "target_revision_changed"
      then ErrConflict else ErrValidation
    }
  }

  datatype Warning = Warning(code: string, reference: Reference)

  datatype Response =
    | ConfigResult(outcome: Outcome, revision: nat, warnings: seq<Warning>, failure: Option<Failure>)
    | LifecycleResult(outcome: Outcome, key: string, archived: bool)
    | EnvironmentResult(outcome: Outcome, key: string, displayName: string, archived: bool)

  datatype Problem = InvalidRequest | OperationReuse | OperationIncomplete | ReplayCorrupt | DatabaseError

  datatype Reply = Returned(response: Response, error: ErrorClass) | Failed(problem: Problem)

  // ----- The database -----

  /** A pending operation has no outcome yet; the resulting revision is 0 for NULL. */
  datatype Progress = Pending | Completed(outcome: Outcome, response: Response, resultingRevision: nat)

  datatype Operation = Operation(digest: Digest, actor: Actor, progress: Progress)

  datatype Environment = Environment(id: string, name: string, archived: bool)

  datatype Config = Config(id: string, name: string, archived: bool)

  datatype Binding = Binding(configId: string, environmentId: string)

  datatype RevisionId = RevisionId(binding: Binding, revision: nat)

  datatype Revision = Revision(format: string, content: string, references: seq<Reference>, operationId: string,
                               actor: Actor, source: Option<Source>)

  datatype EventKind = Audit | Notification

  datatype Event = Event(kind: EventKind, eventType: string, operationId: string, actor: Actor, action: string,
                         outcome: Outcome, environmentKey: string, resourceType: string, resourceKey: string,
                         revision: nat)

  datatype Field = Field(fieldType: string, archived: bool)

  datatype VaultItem = VaultItem(id: string, currentRevision: nat, archived: bool)

  /** A Vault Item revision: its fields, the variant each environment is bound to, and the record. */
  datatype VaultRow = VaultRow(fields: map<string, Field>, bindings: map<string, string>, row: KeyRotation.Row)

  datatype Db = Db(operations: map<string, Operation>, environments: map<string, Environment>,
                   configs: map<string, Config>, states: map<Binding, nat>, revisions: map<RevisionId, Revision>,
                   outbox: seq<Event>, vaultItems: map<Etags.ItemKey, VaultItem>,
                   vaultRows: map<KeyRotation.RowKey, VaultRow>, sentinel: EncryptedSentinel)

  /** Canonicalize and Merge of the document engine, by format. */
  datatype Document = Document(content: string, references: seq<Reference>)

  datatype Codec = Codec(canonicalize: (string, string) -> Option<Document>,
                         merge: (string, string, string) -> Option<Document>)

  // ----- Validation -----

  predicate ValidActor(actor: Actor) {
    (actor.kind == "user" || actor.kind == "system") && actor.id != "" && |actor.id| <= 255
  }

  predicate OperationCharacter(c: char) {
    'a' <= c <= 'z' || 'A' <= c <= 'Z' || '0' <= c <= '9' || c == '-' || c == '_'
  }

  predicate ValidOperationId(id: string) {
    8 <= |id| <= 128 && forall i | 0 <= i < |id| :: OperationCharacter(id[i])
  }

  datatype Validated = Valid(document: Document) | Invalid(failure: Failure)

  /** validateConfigCommit, then Canonicalize. */
  function Validate(codec: Codec, request: ConfigCommit): Validated {
    if !ValidResourceKey(request.environmentKey) then
        Invalid(Failure("target_environment", "target_environment_invalid"))
    else if !ValidResourceKey(request.configKey) then Invalid(Failure("target_config", "target_config_invalid"))
    else if request.configName == "" || |request.configName| > 255 then Invalid(Failure("name", "config_name_invalid"))
    else
      match codec.canonicalize(request.format, request.content)
      case None => Invalid(Failure("content", "config_document_invalid"))
      case Some(document) => Valid(document)
  }

  // ----- Operations -----

  datatype Begun = Fresh | Replay(outcome: Outcome, response: Response) | Reused | Incomplete

  /** beginOperation on an existing row, or a fresh one. */
  function Begin(db: Db, id: string, digest: Digest, compatible: Option<Digest>): Begun {
    if id !in db.operations then Fresh
    else
      var operation := db.operations[id];
      if operation.digest != digest && compatible != Some(operation.digest) then Reused
      else if operation.progress.Pending? then Incomplete
      else Replay(operation.progress.outcome, operation.progress.response)
  }

  function OutcomeError(outcome: Outcome): ErrorClass {
    match outcome
    case Conflict => ErrConflict
    case ValidationFailed => ErrValidation
    case _ => NoError
  }

  function ErrorOf(response: Response): ErrorClass {
    if response.ConfigResult? && response.failure.Some? then response.failure.value.Class()
        else OutcomeError(response.outcome)
  }

  /** A recorded response is returned only if it carries the recorded outcome. */
  function ReplayReply(outcome: Outcome, response: Response): Reply {
    if response.outcome == outcome then Returned(response, ErrorOf(response)) else Failed(ReplayCorrupt)
  }

  /** The event of an operation; rejected input is not a resource identity. */
  function EventOf(kind: EventKind, eventType: string, operationId: string, actor: Actor, action: string,
                   outcome: Outcome,
                   environmentKey: string, resourceType: string, resourceKey: string, revision: nat): Event {
    var scrub := outcome == ValidationFailed;
    Event(kind, eventType, operationId, actor, action, outcome,
          if scrub && !ValidResourceKey(environmentKey) then "" else environmentKey,
          resourceType,
          if scrub && !ValidResourceKey(resourceKey) then "" else resourceKey,
          if outcome == Success then revision else 0)
  }

  datatype Completion = Completion(id: string, digest: Digest, actor: Actor, response: Response, revision: nat,
                                   eventType: string, action: string, environmentKey: string, resourceType: string,
                                   resourceKey: string, notify: bool) {
    function EventFor(kind: EventKind): Event {
      EventOf(kind, eventType, id, actor, action, response.outcome, environmentKey, resourceType, resourceKey, revision)
    }

    function Row(): Operation {
      Operation(digest, actor, Completed(response.outcome, response, if response.outcome == Success then revision
                                         else 0))
    }
  }

  /** finishOperation: the operation completes, with its audit event and perhaps a notification. */
  function Finish(db: Db, c: Completion): Db {
    db.(operations := db.operations[c.id := c.Row()],
        outbox := db.outbox + [c.EventFor(Audit)] + if c.notify then [c.EventFor(Notification)] else [])
  }

  // ----- Committing a Config -----

  datatype Current = Nothing | At(revision: nat, row: Revision) | Broken

  /** lockCurrentConfig. */
  function CurrentOf(db: Db, binding: Binding): Current {
    if binding !in db.states then Nothing
    else if RevisionId(binding, db.states[binding]) !in db.revisions then Broken
    else At(db.states[binding], db.revisions[RevisionId(binding, db.states[binding])])
  }

  function Warn(db: Db, environmentId: string, reference: Reference): seq<Warning> {
    var key := Etags.ItemKey(reference.namespaceKey, reference.itemKey);
    if key !in db.vaultItems || db.vaultItems[key].archived then [Warning("missing_vault_item", reference)]
    else
      var row := KeyRotation.RowKey(db.vaultItems[key].id, db.vaultItems[key].currentRevision);
      if !(row in db.vaultRows && reference.fieldKey in db.vaultRows[row].fields
           && !db.vaultRows[row].fields[reference.fieldKey].archived)
      then [Warning("missing_vault_field", reference)]
      else if environmentId !in db.vaultRows[row].bindings then
          [Warning("missing_vault_environment_variant", reference)]
      else []
  }

  /** configWarnings. */
  function Warnings(db: Db, environmentId: string, references: seq<Reference>): seq<Warning> {
    if references == [] then []
    else Warn(db, environmentId, references[0]) + Warnings(db, environmentId, references[1..])
  }

  datatype Decision =
    | Reject(outcome: Outcome, failure: Failure)
    | Keep(revision: nat, warnings: seq<Warning>)
    | Advance(binding: Binding, revision: nat, warnings: seq<Warning>)
    | Abandon

  predicate Active(db: Db, environmentKey: string) {
    environmentKey in db.environments && !db.environments[environmentKey].archived
  }

  function RevisionOf(current: Current): nat
    requires !current.Broken?
  {
    if current.At? then current.revision else 0
  }

  /** What a fresh request leads to in a given state of the database. */
  function Decide(db: Db, request: ConfigCommit, meta: Meta, validated: Validated, newId: string): (decision: Decision)
    ensures decision.Advance? ==> validated.Valid?
  {
    if validated.Invalid? then Reject(ValidationFailed, validated.failure)
    else if !Active(db, request.environmentKey) then
      Reject(ValidationFailed, Failure("target_environment", "target_environment_unavailable"))
    else
      var environmentId := db.environments[request.environmentKey].id;
      if request.configKey !in db.configs then
        if request.expectedRevision != 0 then Reject(Conflict,
                                                     Failure("expected_target_revision", "target_revision_changed"))
        else if !NewConfigId(db, newId) then Abandon
        else Compare(db, request, validated.document, Binding(newId, environmentId))
      else if meta.createOnly then Reject(Conflict, Failure("target_config", "clone_target_exists"))
      else if db.configs[request.configKey].archived then
          Reject(ValidationFailed, Failure("target_config", "config_archived"))
      else Compare(db, request, validated.document, Binding(db.configs[request.configKey].id, environmentId))
  }

  /** The primary key admits the new row. */
  predicate NewConfigId(db: Db, id: string) {
    forall key | key in db.configs :: db.configs[key].id != id
  }

  /** The compare-and-swap on the current revision. */
  function Compare(db: Db, request: ConfigCommit, document: Document, binding: Binding): Decision {
    var current := CurrentOf(db, binding);
    if current.Broken? then Abandon
    else if request.expectedRevision != RevisionOf(current) then
      Reject(Conflict, Failure("expected_target_revision",
                               if request.expectedRevision == 0 then "target_config_exists"
                                   else "target_revision_changed"))
    else
      var warnings := Warnings(db, binding.environmentId, document.references);
      if current.At? && current.revision > 0 && current.row.format == request.format
          && current.row.content == document.content
      then Keep(current.revision, warnings)
      else if RevisionOf(current) + 1 == UINT64_LIMIT then Abandon // wraps to 0, which the schema refuses
      else Advance(binding, RevisionOf(current) + 1, warnings)
  }

  function NewRevision(request: ConfigCommit, meta: Meta, document: Document): Revision {
    Revision(request.format, document.content, document.references, request.operationId, request.actor, meta.source)
  }

  /** The rows a successful commit writes before its operation is finished. */
  function WriteRevision(db: Db, request: ConfigCommit, meta: Meta, document: Document, binding: Binding,
                         revision: nat): Db {
    db.(configs := if request.configKey in db.configs then db.configs
                   else db.configs[request.configKey := Config(binding.configId, request.configName, false)],
        revisions := db.revisions[RevisionId(binding, revision) := NewRevision(request, meta, document)],
        states := db.states[binding := revision])
  }

  function EventName(meta: Meta, suffix: string): string {
    "config." + meta.action + "." + suffix
  }

  function SuccessEvent(meta: Meta, revision: nat): string {
    if meta.successEvent != "" then meta.successEvent else if revision == 1 then "config.created" else "config.updated"
  }

  function DigestOf(request: ConfigCommit, meta: Meta): Digest {
    if meta.requestDigest.Some? then meta.requestDigest.value
    else CommitDigest(request, meta.action, meta.source, meta.createOnly)
  }

  /** finishConfigOperation. */
  function ConfigCompletion(request: ConfigCommit, meta: Meta, digest: Digest, response: Response, eventType: string,
                            notify: bool): Completion
    requires response.ConfigResult?
  {
    Completion(request.operationId, digest, request.actor, response, response.revision, eventType,
               "config." + meta.action, request.environmentKey, "config", request.configKey, notify)
  }

  /** finishConfigFailure. */
  function RejectConfig(db: Db, request: ConfigCommit, meta: Meta, digest: Digest, outcome: Outcome,
                        failure: Failure): (Db, Reply) {
    var response := ConfigResult(outcome, 0, [], Some(failure));
    (Finish(db, ConfigCompletion(request, meta, digest, response, EventName(meta, OutcomeText(outcome)), false)),
     Returned(response, failure.Class()))
  }

  /** Carrying out a decision. */
  function Settle(db: Db, request: ConfigCommit, meta: Meta, validated: Validated, decision: Decision): (Db, Reply)
    requires decision.Advance? ==> validated.Valid?
  {
    match decision
    case Reject(outcome, failure) => RejectConfig(db, request, meta, DigestOf(request, meta), outcome, failure)
    case Keep(revision, warnings) =>
      var response := ConfigResult(NoChange, revision, warnings, None);
      (Finish(db, ConfigCompletion(request, meta, DigestOf(request, meta), response, EventName(meta, "no_change"),
                                   false)),
       Returned(response, NoError))
    case Advance(binding, revision, warnings) =>
      var response := ConfigResult(Success, revision, warnings, None);
      var written := WriteRevision(db, request, meta, validated.document, binding, revision);
      (Finish(written, ConfigCompletion(request, meta, DigestOf(request, meta), response,
                                        SuccessEvent(meta, revision), true)),
       Returned(response, NoError))
    case Abandon => (db, Failed(DatabaseError))
  }

  /** A transaction that starts with beginOperation, up to the point where it goes on only if fresh. */
  function Guarded(db: Db, begun: Begun, started: (Db, Reply)): (Db, Reply) {
    match begun
    case Fresh => started
    case Replay(outcome, response) => (db, ReplayReply(outcome, response))
    case Reused => (db, Failed(OperationReuse))
    case Incomplete => (db, Failed(OperationIncomplete))
  }

  /** What a commit sees. Its plain SELECTs, on environments, revision contents and the Vault, show the read view
      that the first of them opened; its locking reads show what is committed now. */
  function Seen(view: Db, db: Db): Db {
    db.(environments := view.environments, revisions := view.revisions, vaultItems := view.vaultItems,
        vaultRows := view.vaultRows)
  }

  /** commitConfig with a read view from some earlier moment. A current revision that the view does not show
      cannot be read, which fails the transaction. */
  function CommitAt(codec: Codec, view: Db, db: Db, request: ConfigCommit, meta: Meta, newId: string): (Db, Reply) {
    if !ValidOperationId(request.operationId) || !ValidActor(request.actor) then (db, Failed(InvalidRequest))
    else
      var validated := Validate(codec, request);
      Guarded(db, Begin(db, request.operationId, DigestOf(request, meta), meta.legacyDigest),
              Settle(db, request, meta, validated, Decide(Seen(view, db), request, meta, validated, newId)))
  }

  /** commitConfig with nothing happening in between. */
  function CommitConfig(codec: Codec, db: Db, request: ConfigCommit, meta: Meta, newId: string): (Db, Reply) {
    if !ValidOperationId(request.operationId) || !ValidActor(request.actor) then (db, Failed(InvalidRequest))
    else
      var validated := Validate(codec, request);
      Guarded(db, Begin(db, request.operationId, DigestOf(request, meta), meta.legacyDigest),
              Settle(db, request, meta, validated, Decide(db, request, meta, validated, newId)))
  }

  /** rejectConfigTransfer: no compatible digest is accepted here. */
  function RejectTransfer(db: Db, request: ConfigCommit, meta: Meta, failure: Failure): (Db, Reply) {
    var digest := DigestOf(request, meta);
    Guarded(db, Begin(db, request.operationId, digest, None),
            RejectConfig(db, request, meta, digest, ValidationFailed, failure))
  }

  // ----- Archiving a Config -----

  function LifecycleCompletion(request: LifecycleChange, response: Response, eventType: string,
                               notify: bool): Completion {
    Completion(request.operationId, LifecycleDigest(request), request.actor, response, 0, eventType,
               "config." + request.action, "", "config", request.key, notify)
  }

  function FailLifecycle(db: Db, request: LifecycleChange, eventType: string): (Db, Reply) {
    var response := LifecycleResult(ValidationFailed, request.key, false);
    (Finish(db, LifecycleCompletion(request, response, eventType, false)), Returned(response, ErrValidation))
  }

  function FreshLifecycle(db: Db, request: LifecycleChange): (Db, Reply) {
    if !ValidResourceKey(request.key) || (request.action != "archive" && request.action != "unarchive") then
      FailLifecycle(db, request, "config.validation_failed")
    else if request.key !in db.configs then
      FailLifecycle(db, request, "config.not_found")
    else
      var archive := request.action == "archive";
      var changes := db.configs[request.key].archived != archive;
      var response := LifecycleResult(if changes then Success else NoChange, request.key, archive);
      var changed := db.(configs := db.configs[request.key := db.configs[request.key].(archived := archive)]);
      (Finish(changed, LifecycleCompletion(request, response, if archive then "config.archived"
                                           else "config.unarchived", changes)),
       Returned(response, NoError))
  }

  /** ApplyConfigLifecycleChange. */
  function ChangeLifecycle(db: Db, request: LifecycleChange): (Db, Reply) {
    if !ValidOperationId(request.operationId) || !ValidActor(request.actor) then (db, Failed(InvalidRequest))
    else
      Guarded(db, Begin(db, request.operationId, LifecycleDigest(request), None),
              FreshLifecycle(db, request))
  }

  // ----- Environments -----

  predicate ValidEnvironmentChange(request: EnvironmentChange) {
    && ValidResourceKey(request.key)
    && (request.action == "create" || request.action == "rename" ==> 0 < |request.displayName| <= 255)
    && (request.action == "create" || request.action == "rename" || request.action == "archive"
        || request.action == "unarchive")
  }

  function EnvironmentCompletion(request: EnvironmentChange, response: Response, eventType: string,
                                 notify: bool): Completion {
    Completion(request.operationId, EnvironmentDigest(request), request.actor, response, 0, eventType,
               "environment." + request.action, request.key, "environment", request.key, notify)
  }

  function FailEnvironment(db: Db, request: EnvironmentChange, outcome: Outcome, eventType: string): (Db, Reply) {
    var response := EnvironmentResult(outcome, request.key, "", false);
    (Finish(db, EnvironmentCompletion(request, response, eventType, false)),
     Returned(response, if outcome == Conflict then ErrConflict else ErrValidation))
  }

  predicate NewEnvironmentId(db: Db, id: string) {
    forall key | key in db.environments :: db.environments[key].id != id
  }

  function FreshEnvironment(db: Db, request: EnvironmentChange, newId: string): (Db, Reply) {
    if !ValidEnvironmentChange(request) then FailEnvironment(db, request, ValidationFailed,
                                                             "environment.validation_failed")
    else if request.action == "create" then
      if request.key in db.environments then FailEnvironment(db, request, Conflict, "environment.conflict")
      else if !NewEnvironmentId(db, newId) then (db, Failed(DatabaseError))
      else SetEnvironment(db, request, Environment(newId, request.displayName, false), Success)
    else if request.key !in db.environments then
      FailEnvironment(db, request, ValidationFailed,
                      if request.action == "rename" then "environment.not_active" else "environment.not_found")
    else
      var was := db.environments[request.key];
      if request.action == "rename" then
        if was.archived then FailEnvironment(db, request, ValidationFailed, "environment.not_active")
        else SetEnvironment(db, request, was.(name := request.displayName),
                            if was.name == request.displayName then NoChange else Success)
      else
        var archive := request.action == "archive";
        SetEnvironment(db, request, was.(archived := archive), if was.archived == archive then NoChange else Success)
  }

  function SetEnvironment(db: Db, request: EnvironmentChange, now: Environment, outcome: Outcome): (Db, Reply) {
    var response := EnvironmentResult(outcome, request.key, now.name, now.archived);
    (Finish(db.(environments := db.environments[request.key := now]),
            EnvironmentCompletion(request, response, "environment." + request.action, outcome == Success)),
     Returned(response, NoError))
  }

  /** ApplyEnvironmentChange. */
  function ChangeEnvironment(db: Db, request: EnvironmentChange, newId: string): (Db, Reply) {
    if !ValidOperationId(request.operationId) || !ValidActor(request.actor) then (db, Failed(InvalidRequest))
    else
      Guarded(db, Begin(db, request.operationId, EnvironmentDigest(request), None),
              FreshEnvironment(db, request, newId))
  }
}
