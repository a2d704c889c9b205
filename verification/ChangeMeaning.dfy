/** What one fresh lifecycle or environment change does: exactly when it succeeds, what it changes, and what is
    recorded and announced of it. */
module ChangeMeaning {
  import opened Ordering
  import opened References
  import opened ConfigStore
  import opened StoreGuarantees
  import opened CommitMeaning

  // ----- Archiving a Config -----

  predicate KnownAction(action: string) {
    action == "archive" || action == "unarchive"
  }

  /** The change applies to a Config. */
  predicate Applies(db: Db, request: LifecycleChange) {
    ValidResourceKey(request.key) && KnownAction(request.action) && request.key in db.configs
  }

  function LifecycleEvent(db: Db, request: LifecycleChange): string {
    if !ValidResourceKey(request.key) || !KnownAction(request.action) then "config.validation_failed"
    else if request.key !in db.configs then "config.not_found"
    else if request.action == "archive" then "config.archived" else "config.unarchived"
  }

  function LifecycleRecord(db: Db, request: LifecycleChange, response: Response): Completion {
    Completion(request.operationId, LifecycleDigest(request), request.actor, response, 0, LifecycleEvent(db, request),
               "config." + request.action, "", "config", request.key, response.outcome == Success)
  }

  /** What a fresh lifecycle change answers and leaves. */
  predicate LifecycleAnswers(db: Db, now: Db, request: LifecycleChange, reply: Reply) {
    var archive := request.action == "archive";
    && reply.Returned? && reply.response.LifecycleResult? && reply.response.key == request.key
    && Told(db, now, LifecycleRecord(db, request, reply.response))
    && if Applies(db, request) then
         && reply.response.outcome == (if db.configs[request.key].archived == archive then NoChange else Success)
         && reply.response.archived == archive && reply.error == NoError
         && now.configs == db.configs[request.key := db.configs[request.key].(archived := archive)]
       else
         && reply.response.outcome == ValidationFailed && !reply.response.archived
         && reply.error == ErrValidation && now.configs == db.configs
  }

  /** A fresh lifecycle change succeeds exactly when it applies to a Config that is not yet as asked, finds nothing
      to change exactly when that is as asked, and is refused otherwise. */
  lemma LifecycleMeans(db: Db, request: LifecycleChange)
    requires request.operationId !in db.operations && ValidOperationId(request.operationId) && ValidActor(request.actor)
    ensures var (now, reply) := ChangeLifecycle(db, request);
            LifecycleAnswers(db, now, request, reply)
  {
    hide ValidResourceKey, ValidOperationId, Told, Finish;
    var (now, reply) := ChangeLifecycle(db, request);
    var was := if Applies(db, request) then WithArchived(db, request.key, request.action == "archive") else db;
    forall c ensures Told(db, Finish(was, c), c) && Finish(was, c).configs == was.configs {
      FinishTold(db, was, c);
      FinishTables(was, c);
    }
  }

  /** A fresh change with an identity is answered like this. */
  predicate LifecycleTold(db: Db, now: Db, request: LifecycleChange, reply: Reply) {
    request.operationId !in db.operations && ValidOperationId(request.operationId) && ValidActor(request.actor) ==>
      LifecycleAnswers(db, now, request, reply)
  }

  lemma LifecycleTells(db: Db, request: LifecycleChange)
    ensures var (now, reply) := ChangeLifecycle(db, request);
            LifecycleTold(db, now, request, reply)
  {
    hide ValidOperationId, ValidActor, ChangeLifecycle, LifecycleAnswers;
    if request.operationId !in db.operations && ValidOperationId(request.operationId) && ValidActor(request.actor) {
      LifecycleMeans(db, request);
    }
  }

  // ----- Environments -----

  /** The key, the action and, where one is given, the name are acceptable. */
  predicate WellAsked(request: EnvironmentChange) {
    && ValidResourceKey(request.key)
    && match request.action
       case "create" => 0 < |request.displayName| <= 255
       case "rename" => 0 < |request.displayName| <= 255
       case "archive" => true
       case "unarchive" => true
       case _ => false
  }

  /** What the environment is to be, if the request can be met. */
  function Wanted(db: Db, request: EnvironmentChange, newId: string): Option<Environment> {
    if !WellAsked(request) then None
    else if request.action == "create" then
      if request.key in db.environments then None else Some(Environment(newId, request.displayName, false))
    else if !(request.key in db.environments) then None
    else
      var was := db.environments[request.key];
      match request.action
      case "rename" => if was.archived then None else Some(Environment(was.id, request.displayName, false))
      case "archive" => Some(Environment(was.id, was.name, true))
      case _ => Some(Environment(was.id, was.name, false))
  }

  predicate AlreadyThere(db: Db, request: EnvironmentChange) {
    WellAsked(request) && request.action == "create" && request.key in db.environments
  }

  function EnvironmentEvent(db: Db, request: EnvironmentChange, outcome: Outcome): string {
    match outcome
    case Conflict => "environment.conflict"
    case ValidationFailed =>
      if !WellAsked(request) then "environment.validation_failed"
      else if request.action == "rename" then "environment.not_active" else "environment.not_found"
    case _ => "environment." + request.action
  }

  function EnvironmentRecord(db: Db, request: EnvironmentChange, response: Response): Completion {
    Completion(request.operationId, EnvironmentDigest(request), request.actor, response, 0,
               EnvironmentEvent(db, request, response.outcome), "environment." + request.action, request.key,
               "environment", request.key, response.outcome == Success)
  }

  /** What a fresh environment change answers and leaves. */
  predicate EnvironmentAnswers(db: Db, now: Db, request: EnvironmentChange, newId: string, reply: Reply) {
    && reply.Returned? && reply.response.EnvironmentResult? && reply.response.key == request.key
    && Told(db, now, EnvironmentRecord(db, request, reply.response))
    && match Wanted(db, request, newId)
       case Some(wanted) =>
         && reply.response.outcome == (if request.key in db.environments && db.environments[request.key] == wanted
                                       then NoChange else Success)
         && reply.response.displayName == wanted.name && reply.response.archived == wanted.archived
         && reply.error == NoError && now.environments == db.environments[request.key := wanted]
       case None =>
         && reply.response.outcome == (if AlreadyThere(db, request) then Conflict else ValidationFailed)
         && reply.response.displayName == "" && !reply.response.archived
         && reply.error == (if AlreadyThere(db, request) then ErrConflict else ErrValidation)
         && now.environments == db.environments
  }

  /** A fresh environment change succeeds exactly when the environment can be as asked and is not yet so, finds
      nothing to change exactly when it already is, and conflicts exactly when it creates one that exists. */
  lemma EnvironmentMeans(db: Db, request: EnvironmentChange, newId: string)
    requires request.operationId !in db.operations && ValidOperationId(request.operationId) && ValidActor(request.actor)
    requires NewEnvironmentId(db, newId)
    ensures var (now, reply) := ChangeEnvironment(db, request, newId);
            EnvironmentAnswers(db, now, request, newId, reply)
  {
    hide ValidResourceKey, ValidOperationId, Told, Finish, NewEnvironmentId;
    var wanted := Wanted(db, request, newId);
    var was := if wanted.Some? then db.(environments := db.environments[request.key := wanted.value]) else db;
    forall c ensures Told(db, Finish(was, c), c) && Finish(was, c).environments == was.environments {
      FinishTold(db, was, c);
      FinishTables(was, c);
    }
  }

  predicate EnvironmentTold(db: Db, now: Db, request: EnvironmentChange, newId: string, reply: Reply) {
    && request.operationId !in db.operations && ValidOperationId(request.operationId) && ValidActor(request.actor)
    && NewEnvironmentId(db, newId)
    ==> EnvironmentAnswers(db, now, request, newId, reply)
  }

  lemma EnvironmentTells(db: Db, request: EnvironmentChange, newId: string)
    ensures var (now, reply) := ChangeEnvironment(db, request, newId);
            EnvironmentTold(db, now, request, newId, reply)
  {
    hide ValidOperationId, ValidActor, NewEnvironmentId, ChangeEnvironment, EnvironmentAnswers;
    if && request.operationId !in db.operations && ValidOperationId(request.operationId) && ValidActor(request.actor)
       && NewEnvironmentId(db, newId) {
      EnvironmentMeans(db, request, newId);
    }
  }
}
