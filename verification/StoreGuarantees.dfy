/** What callers of the store may rely on: operations take effect exactly once, and a commit succeeds
    exactly when it was based on the current revision of an active Config. */
module StoreGuarantees {
  import opened Ordering
  import opened References
  import opened Encoding
  import opened ConfigStore
  import opened StoreInvariants
  import opened StoreSteps
  import opened CommitViews
  import opened StoreRuns

  // ----- Exactly once -----

  predicate Matches(operation: Operation, digest: Digest, compatible: Option<Digest>) {
    operation.digest == digest || compatible == Some(operation.digest)
  }

  /** The operation is on record with this reply. */
  predicate OnRecord(db: Db, id: string, digest: Digest, compatible: Option<Digest>, reply: Reply) {
    && id in db.operations && Matches(db.operations[id], digest, compatible)
    && db.operations[id].progress.Completed?
    && reply == Returned(db.operations[id].progress.response, ErrorOf(db.operations[id].progress.response))
  }

  /** A matching request for a recorded operation gets the recorded reply. */
  lemma RecordedIsReplayed(db: Db, id: string, digest: Digest, compatible: Option<Digest>, reply: Reply)
    requires OnRecord(db, id, digest, compatible, reply) && OperationWell(id, db.operations[id])
    ensures var begun := Begin(db, id, digest, compatible);
            begun.Replay? && ReplayReply(begun.outcome, begun.response) == reply
  {
    hide ResponseWell, ShapeFits, OperationIdOf;
  }

  /** A call that returns leaves its reply on record. */
  lemma CommitAtLeavesRecord(codec: Codec, view: Db, db: Db, request: ConfigCommit, meta: Meta, newId: string)
    requires OperationsWell(db)
    ensures var (now, reply) := CommitAt(codec, view, db, request, meta, newId);
            reply.Returned? ==> OnRecord(now, request.operationId, DigestOf(request, meta), meta.legacyDigest, reply)
  {
    hide Validate, DigestOf, ValidOperationId, Decide, Settle, ResponseWell, ShapeFits, OperationIdOf;
    if Begin(db, request.operationId, DigestOf(request, meta), meta.legacyDigest).Fresh? {
      var validated := Validate(codec, request);
      SettleReply(db, request, meta, validated, Decide(Seen(view, db), request, meta, validated, newId));
    }
  }

  lemma SettleReply(db: Db, request: ConfigCommit, meta: Meta, validated: Validated, decision: Decision)
    requires decision.Advance? ==> validated.Valid?
    ensures var (now, reply) := Settle(db, request, meta, validated, decision);
            reply.Returned? ==> OnRecord(now, request.operationId, DigestOf(request, meta), None, reply)
  {
    hide DigestOf, WriteRevision, Finish, OnRecord;
    forall d, c ensures OnRecord(Finish(d, c), c.id, c.digest, None, Returned(c.response, ErrorOf(c.response))) {
      FinishLeavesRecord(d, c);
    }
  }

  lemma FinishLeavesRecord(db: Db, c: Completion)
    ensures OnRecord(Finish(db, c), c.id, c.digest, None, Returned(c.response, ErrorOf(c.response)))
  {
  }

  /** A refused transfer leaves its reply on record too. */
  lemma RefuseLeavesRecord(db: Db, request: ConfigCommit, meta: Meta, failure: Failure)
    requires OperationsWell(db)
    ensures var (now, reply) := RejectTransfer(db, request, meta, failure);
            reply.Returned? ==> OnRecord(now, request.operationId, DigestOf(request, meta), None, reply)
  {
    hide DigestOf, ResponseWell, ShapeFits, OperationIdOf;
  }

  lemma LifecycleLeavesRecord(db: Db, request: LifecycleChange)
    requires OperationsWell(db)
    ensures var (now, reply) := ChangeLifecycle(db, request);
            reply.Returned? ==> OnRecord(now, request.operationId, LifecycleDigest(request), None, reply)
  {
    hide ValidResourceKey, ValidOperationId, FreshLifecycle, OperationWell;
    if Begin(db, request.operationId, LifecycleDigest(request), None).Fresh? {
      FreshLifecycleLeavesRecord(db, request);
    }
  }

  lemma FreshLifecycleLeavesRecord(db: Db, request: LifecycleChange)
    ensures var (now, reply) := FreshLifecycle(db, request);
            reply.Returned? ==> OnRecord(now, request.operationId, LifecycleDigest(request), None, reply)
  {
    hide ValidResourceKey, Finish, OnRecord;
    forall d, c ensures OnRecord(Finish(d, c), c.id, c.digest, None, Returned(c.response, ErrorOf(c.response))) {
      FinishLeavesRecord(d, c);
    }
  }

  lemma EnvironmentLeavesRecord(db: Db, request: EnvironmentChange, newId: string)
    requires OperationsWell(db)
    ensures var (now, reply) := ChangeEnvironment(db, request, newId);
            reply.Returned? ==> OnRecord(now, request.operationId, EnvironmentDigest(request), None, reply)
  {
    hide ValidOperationId, FreshEnvironment, OperationWell;
    if Begin(db, request.operationId, EnvironmentDigest(request), None).Fresh? {
      FreshEnvironmentLeavesRecord(db, request, newId);
    }
  }

  lemma FreshEnvironmentLeavesRecord(db: Db, request: EnvironmentChange, newId: string)
    ensures var (now, reply) := FreshEnvironment(db, request, newId);
            reply.Returned? ==> OnRecord(now, request.operationId, EnvironmentDigest(request), None, reply)
  {
    hide ValidEnvironmentChange, SetEnvironment, FailEnvironment, OnRecord, NewEnvironmentId;
    var id, digest := request.operationId, EnvironmentDigest(request);
    forall env: Environment, outcome
      ensures var (now, reply) := SetEnvironment(db, request, env, outcome);
              outcome == Success || outcome == NoChange ==> OnRecord(now, id, digest, None, reply)
    {
      SetLeavesRecord(db, request, env, outcome);
    }
    forall outcome, eventType
      ensures var (now, reply) := FailEnvironment(db, request, outcome, eventType);
              outcome != NoChange && outcome != Success ==> OnRecord(now, id, digest, None, reply)
    {
      FailLeavesRecord(db, request, outcome, eventType);
    }
  }

  lemma SetLeavesRecord(db: Db, request: EnvironmentChange, env: Environment, outcome: Outcome)
    ensures var (now, reply) := SetEnvironment(db, request, env, outcome);
            outcome == Success || outcome == NoChange ==>
              OnRecord(now, request.operationId, EnvironmentDigest(request), None, reply)
  {
    hide Finish, OnRecord;
    forall d, c ensures OnRecord(Finish(d, c), c.id, c.digest, None, Returned(c.response, ErrorOf(c.response))) {
      FinishLeavesRecord(d, c);
    }
  }

  lemma FailLeavesRecord(db: Db, request: EnvironmentChange, outcome: Outcome, eventType: string)
    ensures var (now, reply) := FailEnvironment(db, request, outcome, eventType);
            outcome != NoChange && outcome != Success ==>
              OnRecord(now, request.operationId, EnvironmentDigest(request), None, reply)
  {
    hide Finish, OnRecord;
    forall d, c ensures OnRecord(Finish(d, c), c.id, c.digest, None, Returned(c.response, ErrorOf(c.response))) {
      FinishLeavesRecord(d, c);
    }
  }

  lemma StillOnRecord(was: Db, now: Db, id: string, digest: Digest, compatible: Option<Digest>, reply: Reply)
    requires OnRecord(was, id, digest, compatible, reply) && OperationsExtend(was, now)
    ensures OnRecord(now, id, digest, compatible, reply)
  {
  }

  lemma WellOperation(db: Db, id: string)
    requires DbWell(db) && id in db.operations
    ensures OperationsWell(db) && OperationWell(id, db.operations[id])
  {
    hide OperationWell, OutboxWell, HistoryWell, VaultWell;
  }

  lemma RecordsOf(db: Db)
    requires DbWell(db)
    ensures OperationsWell(db)
  {
    hide OperationWell, OutboxWell, HistoryWell, VaultWell;
  }

  lemma ExtendedRecords(was: Db, now: Db)
    requires Extends(was, now)
    ensures OperationsExtend(was, now)
  {
    hide OperationsExtend, HistoryExtends, VaultExtends;
  }

  /** Whatever has happened in between, and whatever moments they read at, repeating a commit returns the
      first reply and changes nothing. */
  lemma CommitRetry(codec: Codec, states: seq<Db>, steps: seq<Step>, i: nat, j: nat, newId: string, view: Db)
    requires IsRun(codec, states, steps) && DbWell(states[0]) && i < j < |states|
    requires steps[i].Commit? && ReplyTo(codec, states[i], steps[i]).value.Returned?
    ensures CommitAt(codec, view, states[j], steps[i].request, steps[i].meta, newId)
         == (states[j], ReplyTo(codec, states[i], steps[i]).value)
  {
    hide DbWell, OperationsWell, OperationWell, DigestOf, Validate, Decide, Settle, Extends, OnRecord, Begin,
         OperationsExtend;
    var request, meta := steps[i].request, steps[i].meta;
    var reply := ReplyTo(codec, states[i], steps[i]).value;
    RunKeeps(codec, states, steps, i, i);
    RunKeeps(codec, states, steps, i + 1, j);
    RecordsOf(states[i]);
    CommitAtLeavesRecord(codec, steps[i].view, states[i], request, meta, steps[i].newId);
    ExtendedRecords(states[i + 1], states[j]);
    StillOnRecord(states[i + 1], states[j], request.operationId, DigestOf(request, meta), meta.legacyDigest, reply);
    OnRecordKnown(states[j], request.operationId, DigestOf(request, meta), meta.legacyDigest, reply);
    WellOperation(states[j], request.operationId);
    RecordedIsReplayed(states[j], request.operationId, DigestOf(request, meta), meta.legacyDigest, reply);
  }

  lemma OnRecordKnown(db: Db, id: string, digest: Digest, compatible: Option<Digest>, reply: Reply)
    requires OnRecord(db, id, digest, compatible, reply)
    ensures id in db.operations
  {
  }

  lemma LifecycleRetry(codec: Codec, states: seq<Db>, steps: seq<Step>, i: nat, j: nat)
    requires IsRun(codec, states, steps) && DbWell(states[0]) && i < j < |states|
    requires steps[i].Lifecycle? && ChangeLifecycle(states[i], steps[i].lifecycle).1.Returned?
    ensures ChangeLifecycle(states[j], steps[i].lifecycle)
            == (states[j], ChangeLifecycle(states[i], steps[i].lifecycle).1)
  {
    hide DbWell, OperationsWell, OperationWell, FreshLifecycle, Extends, OnRecord, Begin, OperationsExtend;
    var request := steps[i].lifecycle;
    var reply := ChangeLifecycle(states[i], request).1;
    RunKeeps(codec, states, steps, i, i);
    RunKeeps(codec, states, steps, i + 1, j);
    RecordsOf(states[i]);
    LifecycleLeavesRecord(states[i], request);
    ExtendedRecords(states[i + 1], states[j]);
    StillOnRecord(states[i + 1], states[j], request.operationId, LifecycleDigest(request), None, reply);
    OnRecordKnown(states[j], request.operationId, LifecycleDigest(request), None, reply);
    WellOperation(states[j], request.operationId);
    RecordedIsReplayed(states[j], request.operationId, LifecycleDigest(request), None, reply);
  }

  lemma EnvironmentRetry(codec: Codec, states: seq<Db>, steps: seq<Step>, i: nat, j: nat, newId: string)
    requires IsRun(codec, states, steps) && DbWell(states[0]) && i < j < |states|
    requires steps[i].Environments? && ChangeEnvironment(states[i], steps[i].change, steps[i].newId).1.Returned?
    ensures ChangeEnvironment(states[j], steps[i].change, newId)
         == (states[j], ChangeEnvironment(states[i], steps[i].change, steps[i].newId).1)
  {
    hide DbWell, OperationsWell, OperationWell, FreshEnvironment, Extends, OnRecord, Begin, OperationsExtend;
    var request := steps[i].change;
    var reply := ChangeEnvironment(states[i], request, steps[i].newId).1;
    RunKeeps(codec, states, steps, i, i);
    RunKeeps(codec, states, steps, i + 1, j);
    RecordsOf(states[i]);
    EnvironmentLeavesRecord(states[i], request, steps[i].newId);
    ExtendedRecords(states[i + 1], states[j]);
    StillOnRecord(states[i + 1], states[j], request.operationId, EnvironmentDigest(request), None, reply);
    OnRecordKnown(states[j], request.operationId, EnvironmentDigest(request), None, reply);
    WellOperation(states[j], request.operationId);
    RecordedIsReplayed(states[j], request.operationId, EnvironmentDigest(request), None, reply);
  }

  /** An OperationID once used keeps refusing every other request, in all later states. */
  lemma ReuseRefused(codec: Codec, states: seq<Db>, steps: seq<Step>, i: nat, j: nat, request: ConfigCommit,
                     meta: Meta, newId: string, view: Db)
    requires IsRun(codec, states, steps) && DbWell(states[0]) && i <= j < |states|
    requires request.operationId in states[i].operations && ValidOperationId(request.operationId)
    requires ValidActor(request.actor)
    requires !Matches(states[i].operations[request.operationId], DigestOf(request, meta), meta.legacyDigest)
    ensures CommitAt(codec, view, states[j], request, meta, newId) == (states[j], Failed(OperationReuse))
  {
    hide DbWell, DigestOf, Validate, Decide, Settle, ValidOperationId, Extends;
    RunKeeps(codec, states, steps, i, j);
    ExtendedRecords(states[i], states[j]);
  }

  lemma LifecycleReuseRefused(codec: Codec, states: seq<Db>, steps: seq<Step>, i: nat, j: nat, request: LifecycleChange)
    requires IsRun(codec, states, steps) && DbWell(states[0]) && i <= j < |states|
    requires request.operationId in states[i].operations && ValidOperationId(request.operationId)
    requires ValidActor(request.actor)
    requires states[i].operations[request.operationId].digest != LifecycleDigest(request)
    ensures ChangeLifecycle(states[j], request) == (states[j], Failed(OperationReuse))
  {
    hide DbWell, FreshLifecycle, ValidOperationId, Extends;
    RunKeeps(codec, states, steps, i, j);
    ExtendedRecords(states[i], states[j]);
  }

  lemma EnvironmentReuseRefused(codec: Codec, states: seq<Db>, steps: seq<Step>, i: nat, j: nat,
                                request: EnvironmentChange, newId: string)
    requires IsRun(codec, states, steps) && DbWell(states[0]) && i <= j < |states|
    requires request.operationId in states[i].operations && ValidOperationId(request.operationId)
    requires ValidActor(request.actor)
    requires states[i].operations[request.operationId].digest != EnvironmentDigest(request)
    ensures ChangeEnvironment(states[j], request, newId) == (states[j], Failed(OperationReuse))
  {
    hide DbWell, FreshEnvironment, ValidOperationId, Extends;
    RunKeeps(codec, states, steps, i, j);
    ExtendedRecords(states[i], states[j]);
  }

  // ----- No operation is left unfinished -----

  /** The reply to a step that is a request. */
  function ReplyTo(codec: Codec, db: Db, step: Step): Option<Reply> {
    match step
    case Commit(request, meta, newId, view) => Some(CommitAt(codec, view, db, request, meta, newId).1)
    case Refuse(request, meta, failure) => Some(RejectTransfer(db, request, meta, failure).1)
    case Lifecycle(request) => Some(ChangeLifecycle(db, request).1)
    case Environments(request, newId) => Some(ChangeEnvironment(db, request, newId).1)
    case _ => None
  }

  /** The response is of the kind the step asks for. */
  predicate AnswersStep(step: Step, response: Response) {
    match step
    case Commit(_, _, _, _) => response.ConfigResult?
    case Refuse(_, _, _) => response.ConfigResult?
    case Lifecycle(_) => response.LifecycleResult?
    case Environments(_, _) => response.EnvironmentResult?
    case _ => false
  }

  predicate ReplyWell(step: Step, reply: Reply) {
    && reply != Failed(OperationIncomplete) && reply != Failed(ReplayCorrupt)
    && (reply.Returned? ==> ResponseWell(reply.response) && AnswersStep(step, reply.response))
  }

  /** In a reachable state no operation is pending or corrupt: whatever is requested, a replayed response is
      whole and of the requested kind, and so is a new one. */
  lemma NeverIncomplete(codec: Codec, db: Db, step: Step)
    requires DbWell(db) && Enabled(db, step) && ReplyTo(codec, db, step).Some?
    ensures ReplyWell(step, ReplyTo(codec, db, step).value)
  {
    hide DbWell, CommitAt, RejectTransfer, ChangeLifecycle, ChangeEnvironment, MetaWell, SeenBefore, ReplyWell;
    match step
    case Commit(_, _, _, _) => CommitReplyWell(codec, db, step);
    case Refuse(request, meta, failure) => RefuseReplyWell(db, step);
    case Lifecycle(request) => LifecycleReplyWell(db, step);
    case Environments(request, newId) => EnvironmentReplyWell(db, step);
  }

  lemma CommitReplyWell(codec: Codec, db: Db, step: Step)
    requires DbWell(db) && Enabled(db, step) && step.Commit?
    ensures ReplyWell(step, CommitAt(codec, step.view, db, step.request, step.meta, step.newId).1)
  {
    hide DigestOf, Validate, ValidOperationId, DbWell, MetaWell, SeenBefore, StoreWell, AsSeen, Overtaken, CommitAt,
         CommitConfig;
    StorePart(db);
    AsSeenWell(step.view, db, step.request.environmentKey);
    LateCommit(codec, step.view, db, step.request, step.meta, step.newId);
    PromptReplyWell(codec, AsSeen(step.view, db, step.request.environmentKey), step);
  }

  lemma PromptReplyWell(codec: Codec, db: Db, step: Step)
    requires StoreWell(db) && step.Commit? && MetaWell(step.request, step.meta)
    ensures ReplyWell(step, CommitConfig(codec, db, step.request, step.meta, step.newId).1)
  {
    hide DigestOf, Validate, ValidOperationId, StoreWell, MetaWell;
    StoreOperations(db);
    if step.request.operationId in db.operations {
      ReplayShape(db, step.request, step.meta, step.meta.legacyDigest);
    } else {
      FreshReplyWell(codec, db, step.request, step.meta, step.newId);
    }
  }

  lemma StoreOperations(db: Db)
    requires StoreWell(db)
    ensures forall id | id in db.operations :: OperationWell(id, db.operations[id])
  {
    hide OperationWell, OutboxWell, HistoryWell;
  }

  lemma RefuseReplyWell(db: Db, step: Step)
    requires DbWell(db) && Enabled(db, step) && step.Refuse?
    ensures ReplyWell(step, RejectTransfer(db, step.request, step.meta, step.failure).1)
  {
    hide DigestOf, DbWell, MetaWell, Finish;
    RecordsOf(db);
    if step.request.operationId in db.operations {
      WellOperation(db, step.request.operationId);
      ReplayShape(db, step.request, step.meta, None);
    }
  }

  lemma ReplayShape(db: Db, request: ConfigCommit, meta: Meta, compatible: Option<Digest>)
    requires MetaWell(request, meta) && request.operationId in db.operations
    requires OperationWell(request.operationId, db.operations[request.operationId])
    requires compatible.Some? ==> compatible == meta.legacyDigest
    ensures Begin(db, request.operationId, DigestOf(request, meta), compatible).Replay? ==>
              db.operations[request.operationId].progress.response.ConfigResult?
  {
  }

  lemma LifecycleReplyWell(db: Db, step: Step)
    requires DbWell(db) && step.Lifecycle?
    ensures ReplyWell(step, ChangeLifecycle(db, step.lifecycle).1)
  {
    hide DbWell, Finish, ValidOperationId, ValidResourceKey;
    RecordsOf(db);
    if step.lifecycle.operationId in db.operations {
      WellOperation(db, step.lifecycle.operationId);
    }
  }

  lemma EnvironmentReplyWell(db: Db, step: Step)
    requires DbWell(db) && step.Environments?
    ensures ReplyWell(step, ChangeEnvironment(db, step.change, step.newId).1)
  {
    hide DbWell, Finish, ValidOperationId, ValidEnvironmentChange, NewEnvironmentId;
    RecordsOf(db);
    if step.change.operationId in db.operations {
      WellOperation(db, step.change.operationId);
    }
  }

  lemma FreshReplyWell(codec: Codec, db: Db, request: ConfigCommit, meta: Meta, newId: string)
    requires StoreWell(db)
    ensures var validated := Validate(codec, request);
            var reply := Settle(db, request, meta, validated, Decide(db, request, meta, validated, newId)).1;
            reply.Returned? ==> ResponseWell(reply.response) && reply.response.ConfigResult?
  {
    hide Validate, StoreWell, Decide, WriteRevision, Finish, DigestOf, Contiguous, BindingsWell, Writable,
         ChangesDocument;
    Histories(db);
    var decision := Decide(db, request, meta, Validate(codec, request), newId);
    RejectionsClassified(codec, db, request, meta, newId);
    if decision.Keep? {
      DecideKeeps(codec, db, request, meta, newId);
    } else if decision.Advance? {
      DecideAdvances(codec, db, request, meta, newId);
      Positive(db, request, decision.binding, decision.revision);
    }
  }

  lemma StorePart(db: Db)
    requires DbWell(db)
    ensures StoreWell(db)
  {
    hide StoreWell, VaultWell;
  }

  // ----- When a commit goes through -----

  /** The revision a caller must expect: 0 until the Config has one in this environment. */
  function CurrentRevision(db: Db, environmentKey: string, configKey: string): nat {
    if environmentKey in db.environments && configKey in db.configs then
      var binding := Binding(db.configs[configKey].id, db.environments[environmentKey].id);
      if binding in db.states then db.states[binding] else 0
    else 0
  }

  function CurrentDocument(db: Db, environmentKey: string, configKey: string): Option<Revision> {
    if environmentKey in db.environments && configKey in db.configs then
      var binding := Binding(db.configs[configKey].id, db.environments[environmentKey].id);
      if binding in db.states && RevisionId(binding, db.states[binding]) in db.revisions
      then Some(db.revisions[RevisionId(binding, db.states[binding])]) else None
    else None
  }

  /** What a caller can check before committing. */
  predicate Committable(codec: Codec, db: Db, request: ConfigCommit, meta: Meta) {
    && Validate(codec, request).Valid?
    && Active(db, request.environmentKey)
    && (request.configKey in db.configs ==> !meta.createOnly && !db.configs[request.configKey].archived)
    && request.expectedRevision == CurrentRevision(db, request.environmentKey, request.configKey)
  }

  /** The request's document is already the current one. */
  predicate Repeats(codec: Codec, db: Db, request: ConfigCommit) {
    var current := CurrentDocument(db, request.environmentKey, request.configKey);
    && current.Some? && Validate(codec, request).Valid?
    && current.value.format == request.format && current.value.content == Validate(codec, request).document.content
  }

  /** The binding's current revision is this document. */
  predicate Holds(db: Db, binding: Binding, format: string, document: Document) {
    && binding in db.states && RevisionId(binding, db.states[binding]) in db.revisions
    && Known(db, binding, db.states[binding]).format == format
    && Known(db, binding, db.states[binding]).content == document.content
  }

  lemma CompareMeaning(codec: Codec, db: Db, request: ConfigCommit, binding: Binding)
    requires Contiguous(db) && Validate(codec, request).Valid?
    ensures var decision := Compare(db, request, Validate(codec, request).document, binding);
            var current := if binding in db.states then db.states[binding] else 0;
            && (decision.Keep? <==>
                 request.expectedRevision == current
                 && Holds(db, binding, request.format, Validate(codec, request).document))
            && (decision.Keep? || decision.Advance? || decision.Abandon? <==> request.expectedRevision == current)
            && (decision.Abandon? ==> current + 1 == UINT64_LIMIT)
            && (decision.Advance? ==> decision.binding == binding && decision.revision == current + 1)
  {
    hide Warnings, Validate;
    CurrentKnown(db, binding);
  }

  lemma PromptCommitsExactly(codec: Codec, db: Db, request: ConfigCommit, meta: Meta, newId: string)
    requires StoreWell(db) && NewConfigId(db, newId) && request.expectedRevision + 1 < UINT64_LIMIT
    requires request.operationId !in db.operations && ValidOperationId(request.operationId) && ValidActor(request.actor)
    ensures var reply := CommitConfig(codec, db, request, meta, newId).1;
            && reply.Returned?
            && (reply.response.outcome == Success
                <==> Committable(codec, db, request, meta) && !Repeats(codec, db, request))
            && (reply.response.outcome == NoChange
                <==> Committable(codec, db, request, meta) && Repeats(codec, db, request))
  {
    hide Validate, StoreWell, WriteRevision, Finish, DigestOf, Contiguous, BindingsWell, ValidOperationId, Compare,
         NewConfigId, ConfigCompletion, EventName, SuccessEvent;
    Histories(db);
    RejectionsClassified(codec, db, request, meta, newId);
    if Validate(codec, request).Valid? && Active(db, request.environmentKey) {
      var environmentId := db.environments[request.environmentKey].id;
      var configId := if request.configKey in db.configs then db.configs[request.configKey].id else newId;
      CompareMeaning(codec, db, request, Binding(configId, environmentId));
      KnownCurrent(db, Binding(configId, environmentId));
      if request.configKey !in db.configs {
        NewBinding(db, newId, environmentId);
      }
    }
  }

  /** The same with an older read view: the environment must have been active then, the rest must hold now. */
  predicate CommittableAt(codec: Codec, view: Db, db: Db, request: ConfigCommit, meta: Meta) {
    && Validate(codec, request).Valid?
    && Active(view, request.environmentKey)
    && (request.configKey in db.configs ==> !meta.createOnly && !db.configs[request.configKey].archived)
    && request.expectedRevision == CurrentRevision(db, request.environmentKey, request.configKey)
  }

  lemma SeenMeaning(codec: Codec, view: Db, db: Db, request: ConfigCommit, meta: Meta)
    requires SeenBefore(view, db)
    ensures var seen := AsSeen(view, db, request.environmentKey);
            && (Committable(codec, seen, request, meta) <==> CommittableAt(codec, view, db, request, meta))
            && (Repeats(codec, seen, request) <==> Repeats(codec, db, request))
  {
    hide Validate;
  }

  /** A fresh commit fails without a record exactly when it was overtaken: the current revision of its Config
      was committed after its view was opened. Otherwise it succeeds, or finds nothing to change, exactly
      when it was committable, and finds nothing to change exactly when it also repeats the current document. */
  lemma CommitsExactly(codec: Codec, view: Db, db: Db, request: ConfigCommit, meta: Meta, newId: string)
    requires StoreWell(db) && SeenBefore(view, db) && NewConfigId(db, newId)
    requires request.expectedRevision + 1 < UINT64_LIMIT
    requires request.operationId !in db.operations && ValidOperationId(request.operationId) && ValidActor(request.actor)
    ensures var (now, reply) := CommitAt(codec, view, db, request, meta, newId);
            if Overtaken(codec, view, db, request, meta) then (now, reply) == (db, Failed(DatabaseError))
            else
              && reply.Returned?
              && (reply.response.outcome == Success
                  <==> CommittableAt(codec, view, db, request, meta) && !Repeats(codec, db, request))
              && (reply.response.outcome == NoChange
                  <==> CommittableAt(codec, view, db, request, meta) && Repeats(codec, db, request))
  {
    hide StoreWell, SeenBefore, AsSeen, CommitAt, CommitConfig, Overtaken, ValidOperationId, ValidActor, Committable,
         CommittableAt,
         Repeats, NewConfigId;
    var key := request.environmentKey;
    LateCommit(codec, view, db, request, meta, newId);
    AsSeenWell(view, db, key);
    SeenConfigs(view, db, key, newId);
    SameOperations(view, db, key);
    PromptCommitsExactly(codec, AsSeen(view, db, key), request, meta, newId);
    SeenMeaning(codec, view, db, request, meta);
  }

  lemma SameOperations(view: Db, db: Db, key: string)
    ensures AsSeen(view, db, key).operations == db.operations
  {
  }

  /** An overtaken commit loses nothing. Had it read what is current, it would have found the conflict, and it
      does when it is repeated, provided it expected what its view shows and the environment is still active. */
  lemma OvertakenConflicts(codec: Codec, view: Db, db: Db, request: ConfigCommit, meta: Meta, newId: string)
    requires StoreWell(view) && StoreWell(db) && HistoryExtends(view, db) && NewConfigId(db, newId)
    requires Overtaken(codec, view, db, request, meta) && Active(db, request.environmentKey)
    requires request.expectedRevision == CurrentRevision(view, request.environmentKey, request.configKey)
    requires request.operationId !in db.operations && ValidOperationId(request.operationId) && ValidActor(request.actor)
    ensures var reply := CommitConfig(codec, db, request, meta, newId).1;
            reply.Returned? && reply.response.outcome == Conflict
  {
    hide Validate, StoreWell, Finish, DigestOf, ValidOperationId, NewConfigId, Contiguous, BindingsWell;
    Histories(view);
    Histories(db);
    var binding := Binding(db.configs[request.configKey].id, db.environments[request.environmentKey].id);
    KnownCurrent(view, binding);
    KnownCurrent(db, binding);
    CurrentKnown(db, binding);
    PositiveStates(db, binding);
  }

  lemma KnownCurrent(db: Db, binding: Binding)
    requires Contiguous(db)
    ensures binding in db.states ==> RevisionId(binding, db.states[binding]) in db.revisions
  {
  }

  // ----- What a commit leaves behind -----

  /** Nothing but the operation and its events was written. */
  predicate TablesUntouched(was: Db, now: Db) {
    SameTables(was, now) && now.vaultItems == was.vaultItems && now.vaultRows == was.vaultRows
        && now.sentinel == was.sentinel
  }

  /** Exactly one revision was added, holding the canonical document, and it is the current one. */
  predicate OneRevisionAdded(codec: Codec, was: Db, now: Db, request: ConfigCommit, meta: Meta) {
    && Validate(codec, request).Valid?
    && request.environmentKey in now.environments && request.configKey in now.configs
    && now.environments == was.environments
    && (request.configKey in was.configs ==> now.configs == was.configs)
    && (forall k | k in now.configs && k != request.configKey :: k in was.configs && now.configs[k] == was.configs[k])
    && (request.configKey !in was.configs ==> now.configs[request.configKey].name == request.configName)
    && !now.configs[request.configKey].archived
    && var binding := Binding(now.configs[request.configKey].id, now.environments[request.environmentKey].id);
       var revision, document := request.expectedRevision + 1, Validate(codec, request).document;
       && RevisionId(binding, revision) !in was.revisions
       && now.revisions == was.revisions[RevisionId(binding, revision) :=
                                           Revision(request.format, document.content, document.references,
                                                    request.operationId, request.actor, meta.source)]
       && now.states == was.states[binding := revision]
  }

  /** A fresh commit that succeeds adds one revision, the expected one plus one, and nothing else adds any. */
  predicate Committed(codec: Codec, was: Db, now: Db, request: ConfigCommit, meta: Meta, first: bool, reply: Reply) {
    if first && reply.Returned? && reply.response.outcome == Success
    then reply.response.ConfigResult? && reply.response.revision == request.expectedRevision + 1
         && OneRevisionAdded(codec, was, now, request, meta)
    else TablesUntouched(was, now)
  }

  lemma PromptCommitEffect(codec: Codec, db: Db, request: ConfigCommit, meta: Meta, newId: string)
    requires StoreWell(db)
    ensures var (now, reply) := CommitConfig(codec, db, request, meta, newId);
            Committed(codec, db, now, request, meta, request.operationId !in db.operations, reply)
  {
    hide Validate, StoreWell, Finish, DigestOf, ValidOperationId, Decide, Settle, OneRevisionAdded, NewRevision;
    if Begin(db, request.operationId, DigestOf(request, meta), meta.legacyDigest).Fresh? {
      SettleEffect(codec, db, request, meta, newId);
    }
  }

  /** A fresh success adds exactly one revision; every other outcome, replay or failure adds none, whatever
      moment the commit reads at. */
  lemma CommitEffect(codec: Codec, view: Db, db: Db, request: ConfigCommit, meta: Meta, newId: string)
    requires StoreWell(db) && SeenBefore(view, db)
    ensures var (now, reply) := CommitAt(codec, view, db, request, meta, newId);
            Committed(codec, db, now, request, meta, request.operationId !in db.operations, reply)
  {
    hide StoreWell, SeenBefore, AsSeen, CommitAt, CommitConfig, Overtaken, ValidOperationId, ValidActor,
         OneRevisionAdded,
         TablesUntouched, Restored;
    var key := request.environmentKey;
    LateCommit(codec, view, db, request, meta, newId);
    AsSeenWell(view, db, key);
    SameOperations(view, db, key);
    NothingTouched(db);
    PromptCommitEffect(codec, AsSeen(view, db, key), request, meta, newId);
    RestoredEffect(codec, view, db, request, meta,
                   CommitConfig(codec, AsSeen(view, db, key), request, meta, newId).0);
  }

  lemma RestoredEffect(codec: Codec, view: Db, db: Db, request: ConfigCommit, meta: Meta, now: Db)
    ensures var seen := AsSeen(view, db, request.environmentKey);
            && (OneRevisionAdded(codec, seen, now, request, meta) ==>
                  OneRevisionAdded(codec, db, Restored(now, db), request, meta))
            && (TablesUntouched(seen, now) ==> TablesUntouched(db, Restored(now, db)))
  {
    hide Validate, Active;
  }

  lemma SettleEffect(codec: Codec, db: Db, request: ConfigCommit, meta: Meta, newId: string)
    requires StoreWell(db)
    ensures var validated := Validate(codec, request);
            var (now, reply) := Settle(db, request, meta, validated, Decide(db, request, meta, validated, newId));
            Committed(codec, db, now, request, meta, true, reply)
  {
    hide Validate, StoreWell, DigestOf, Contiguous, BindingsWell, Decide, NewRevision, Finish, OneRevisionAdded,
         TablesUntouched,
         WriteRevision, ConfigCompletion;
    Histories(db);
    RejectionsClassified(codec, db, request, meta, newId);
    forall d, c ensures TablesUntouched(d, Finish(d, c)) {
      FinishTables(d, c);
    }
    var decision := Decide(db, request, meta, Validate(codec, request), newId);
    if decision.Advance? {
      AdvanceEffect(codec, db, request, meta, newId);
      var document := Validate(codec, request).document;
      AddedTables(codec, db, WriteRevision(db, request, meta, document, decision.binding, decision.revision), request,
                  meta);
    } else if decision.Abandon? {
      NothingTouched(db);
    }
  }

  lemma NothingTouched(db: Db)
    ensures TablesUntouched(db, db)
  {
  }

  lemma AddedTables(codec: Codec, db: Db, written: Db, request: ConfigCommit, meta: Meta)
    requires OneRevisionAdded(codec, db, written, request, meta)
    ensures forall now :: TablesUntouched(written, now) ==> OneRevisionAdded(codec, db, now, request, meta)
  {
    hide Validate;
  }

  lemma AdvanceEffect(codec: Codec, db: Db, request: ConfigCommit, meta: Meta, newId: string)
    requires Contiguous(db) && BindingsWell(db)
    requires Decide(db, request, meta, Validate(codec, request), newId).Advance?
    ensures var decision := Decide(db, request, meta, Validate(codec, request), newId);
            Validate(codec, request).Valid? && decision.revision == request.expectedRevision + 1
    ensures var decision := Decide(db, request, meta, Validate(codec, request), newId);
            OneRevisionAdded(codec, db, WriteRevision(db, request, meta, Validate(codec, request).document,
                                                      decision.binding, decision.revision),
                             request, meta)
  {
    hide Validate, Contiguous, BindingsWell, NewConfigId, Compare, Holds;
    var document := Validate(codec, request).document;
    var configId := if request.configKey in db.configs then db.configs[request.configKey].id else newId;
    var binding := Binding(configId, db.environments[request.environmentKey].id);
    CompareMeaning(codec, db, request, binding);
    NewRevisionId(db, binding);
  }

  lemma NewRevisionId(db: Db, binding: Binding)
    requires Contiguous(db)
    ensures RevisionId(binding, (if binding in db.states then db.states[binding] else 0) + 1) !in db.revisions
  {
  }

  lemma FinishTables(db: Db, c: Completion)
    ensures TablesUntouched(db, Finish(db, c))
  {
  }

  /** The only Config that may have changed. */
  predicate OnlyConfig(was: Db, now: Db, key: string) {
    && now.environments == was.environments && now.states == was.states && now.revisions == was.revisions
    && now.configs.Keys == was.configs.Keys && forall k | k in was.configs && k != key ::
        now.configs[k] == was.configs[k]
  }

  /** Only the Config's archive flag may differ, and it differs exactly on success. */
  lemma LifecycleEffect(db: Db, request: LifecycleChange)
    requires request.operationId !in db.operations
    ensures var (now, reply) := ChangeLifecycle(db, request);
            && OnlyConfig(db, now, request.key)
            && (reply.Returned? && (reply.response.outcome == Success || reply.response.outcome == NoChange) ==>
                  request.key in db.configs && now.configs[request.key]
                      == db.configs[request.key].(archived := request.action == "archive"))
            && (reply.Returned? && reply.response.outcome == Success <==> now.configs != db.configs)
  {
    hide ValidOperationId, FreshLifecycle;
    FreshLifecycleEffect(db, request);
  }

  lemma FreshLifecycleEffect(db: Db, request: LifecycleChange)
    ensures var (now, reply) := FreshLifecycle(db, request);
            && OnlyConfig(db, now, request.key)
            && (reply.Returned? && (reply.response.outcome == Success || reply.response.outcome == NoChange) ==>
                  request.key in db.configs && now.configs[request.key]
                      == db.configs[request.key].(archived := request.action == "archive"))
            && (reply.Returned? && reply.response.outcome == Success <==> now.configs != db.configs)
  {
    hide ValidResourceKey, Finish, LifecycleCompletion, OnlyConfig, FailLifecycle;
    FailLifecycleEffect(db, request, "config.validation_failed");
    FailLifecycleEffect(db, request, "config.not_found");
    if request.key in db.configs {
      var archived := request.action == "archive";
      forall c ensures ArchiveDone(db, Finish(WithArchived(db, request.key, archived), c), request.key, archived) {
        ArchiveEffect(db, request.key, archived, c);
      }
      assert WithArchived(db, request.key, archived).configs
          == db.configs[request.key := db.configs[request.key].(archived := archived)];
    }
  }

  lemma FailLifecycleEffect(db: Db, request: LifecycleChange, eventType: string)
    ensures var (now, reply) := FailLifecycle(db, request, eventType);
            OnlyConfig(db, now, request.key) && now.configs == db.configs
                && reply == Returned(reply.response, ErrValidation)
            && reply.response.outcome == ValidationFailed
  {
  }

  function WithArchived(db: Db, key: string, archived: bool): Db
    requires key in db.configs
  {
    db.(configs := db.configs[key := db.configs[key].(archived := archived)])
  }

  predicate ArchiveDone(db: Db, now: Db, key: string, archived: bool)
    requires key in db.configs
  {
    && OnlyConfig(db, now, key) && key in now.configs && now.configs[key] == db.configs[key].(archived := archived)
    && (now.configs == db.configs <==> db.configs[key].archived == archived)
  }

  lemma ArchiveEffect(db: Db, key: string, archived: bool, c: Completion)
    requires key in db.configs
    ensures ArchiveDone(db, Finish(WithArchived(db, key, archived), c), key, archived)
  {
    hide Finish;
    FinishTables(WithArchived(db, key, archived), c);
    var now := db.configs[key := db.configs[key].(archived := archived)];
    assert db.configs[key].archived == archived ==> now == db.configs;
  }

  /** The only environment that may have changed or been added. */
  predicate OnlyEnvironment(was: Db, now: Db, key: string) {
    && now.configs == was.configs && now.states == was.states && now.revisions == was.revisions
    && was.environments.Keys <= now.environments.Keys <= was.environments.Keys + {key}
    && forall k | k in was.environments && k != key :: now.environments[k] == was.environments[k]
  }

  lemma SetEnvironmentEffect(db: Db, request: EnvironmentChange, env: Environment, outcome: Outcome)
    ensures var (now, reply) := SetEnvironment(db, request, env, outcome);
            && OnlyEnvironment(db, now, request.key) && request.key in now.environments
                && now.environments[request.key] == env
            && (now.environments == db.environments
                <==> request.key in db.environments && db.environments[request.key] == env)
            && reply.Returned? && reply.response.outcome == outcome
  {
    hide Finish, EnvironmentCompletion;
    EnvironmentSet(db.environments, request.key, env);
    forall d, c ensures TablesUntouched(d, Finish(d, c)) {
      FinishTables(d, c);
    }
  }

  lemma EnvironmentSet(was: map<string, Environment>, key: string, env: Environment)
    ensures was[key := env] == was <==> key in was && was[key] == env
    ensures was.Keys <= was[key := env].Keys <= was.Keys + {key}
  {
    if key in was && was[key] == env {
      assert was[key := env] == was;
    }
  }

  lemma FailEnvironmentEffect(db: Db, request: EnvironmentChange, outcome: Outcome, eventType: string)
    ensures var (now, reply) := FailEnvironment(db, request, outcome, eventType);
            && TablesUntouched(db, now) && OnlyEnvironment(db, now, request.key)
            && reply.Returned? && reply.response.outcome == outcome
  {
    hide Finish;
    FinishTables(db, EnvironmentCompletion(request, EnvironmentResult(outcome, request.key, "", false), eventType,
                                           false));
  }

  /** Only the named environment may differ; archiving, unarchiving and renaming do what they say and leave
      its identity alone; a new one is added only under a new key; outcome success means a change. */
  lemma EnvironmentEffect(db: Db, request: EnvironmentChange, newId: string)
    requires request.operationId !in db.operations
    ensures var (now, reply) := ChangeEnvironment(db, request, newId);
            && OnlyEnvironment(db, now, request.key)
            && (if reply.Returned? && (reply.response.outcome == Success || reply.response.outcome == NoChange)
                then request.key in now.environments
                    && EnvironmentDone(db, request, now.environments[request.key], newId)
                else now.environments == db.environments)
            && (reply.Returned? && reply.response.outcome == Success <==> now.environments != db.environments)
  {
    if ValidOperationId(request.operationId) && ValidActor(request.actor) {
      FreshEnvironmentEffect(db, request, newId);
    }
  }

  lemma FreshEnvironmentEffect(db: Db, request: EnvironmentChange, newId: string)
    ensures var (now, reply) := FreshEnvironment(db, request, newId);
            && OnlyEnvironment(db, now, request.key)
            && (if reply.Returned? && (reply.response.outcome == Success || reply.response.outcome == NoChange)
                then request.key in now.environments
                    && EnvironmentDone(db, request, now.environments[request.key], newId)
                else now.environments == db.environments)
            && (reply.Returned? && reply.response.outcome == Success <==> now.environments != db.environments)
  {
    hide ValidResourceKey, SetEnvironment, FailEnvironment, OnlyEnvironment, NewEnvironmentId;
    forall env: Environment, outcome
      ensures var (now, reply) := SetEnvironment(db, request, env, outcome);
              && OnlyEnvironment(db, now, request.key) && request.key in now.environments
                  && now.environments[request.key] == env
              && (now.environments == db.environments
                  <==> request.key in db.environments && db.environments[request.key] == env)
              && reply.Returned? && reply.response.outcome == outcome
    {
      SetEnvironmentEffect(db, request, env, outcome);
    }
    forall outcome, eventType
      ensures var (now, reply) := FailEnvironment(db, request, outcome, eventType);
              && TablesUntouched(db, now) && OnlyEnvironment(db, now, request.key)
              && reply.Returned? && reply.response.outcome == outcome
    {
      FailEnvironmentEffect(db, request, outcome, eventType);
    }
    Unmoved(db, request.key);
  }

  lemma Unmoved(db: Db, key: string)
    ensures forall now :: TablesUntouched(db, now) ==> OnlyEnvironment(db, now, key)
  {
  }

  /** What a request asks of its environment. */
  predicate EnvironmentDone(db: Db, request: EnvironmentChange, env: Environment, newId: string) {
    match request.action
    case "create" => request.key !in db.environments && env == Environment(newId, request.displayName, false)
    case "rename" => request.key in db.environments && !env.archived
                     && env == db.environments[request.key].(name := request.displayName)
    case "archive" => request.key in db.environments && env == db.environments[request.key].(archived := true)
    case "unarchive" => request.key in db.environments && env == db.environments[request.key].(archived := false)
    case _ => false
  }
}
