/** What every mutation step keeps: operations complete exactly once and revision histories keep their
    shape. None of it depends on what the document engine does. */
module StoreInvariants {
  import opened References
  import opened Encoding
  import opened ConfigStore

  // ----- Operations and their events -----

  predicate ShapeFits(digest: Digest, response: Response) {
    match digest
    case LifecycleDigest(_) => response.LifecycleResult?
    case EnvironmentDigest(_) => response.EnvironmentResult?
    case _ => response.ConfigResult?
  }

  function OperationIdOf(digest: Digest): string {
    match digest
    case CommitDigest(commit, _, _, _) => commit.operationId
    case TransferDigest(_, transfer) => transfer.operationId
    case CloneDigest(clone) => clone.operationId
    case LifecycleDigest(lifecycle) => lifecycle.operationId
    case EnvironmentDigest(environment) => environment.operationId
  }

  /** A recorded failure agrees with its outcome, and only successes have a resulting revision. */
  predicate ResponseWell(response: Response) {
    response.ConfigResult? ==>
      && (response.failure.Some? <==> response.outcome == Conflict || response.outcome == ValidationFailed)
      && (response.failure.Some? ==> response.failure.value.Class() == OutcomeError(response.outcome))
      && (response.failure.None? ==> response.revision > 0)
  }

  predicate OperationWell(id: string, operation: Operation) {
    && operation.progress.Completed?
    && operation.progress.response.outcome == operation.progress.outcome
    && ResponseWell(operation.progress.response)
    && ShapeFits(operation.digest, operation.progress.response)
    && OperationIdOf(operation.digest) == id
    && operation.progress.resultingRevision ==
       (if operation.progress.response.ConfigResult? && operation.progress.outcome == Success
        then operation.progress.response.revision else 0)
  }

  predicate OperationsWell(db: Db) {
    forall id | id in db.operations :: OperationWell(id, db.operations[id])
  }

  function Count(outbox: seq<Event>, id: string, kind: EventKind): nat {
    if outbox == [] then 0
    else
      var last := outbox[|outbox| - 1];
      Count(outbox[..|outbox| - 1], id, kind) + if last.operationId == id && last.kind == kind then 1 else 0
  }

  /** One audit event per operation, and one notification exactly when it succeeded. */
  predicate EventsWell(db: Db, id: string) {
    && Count(db.outbox, id, Audit) == (if id in db.operations then 1 else 0)
    && Count(db.outbox, id, Notification) ==
       (if id in db.operations && db.operations[id].progress.Completed?
        && db.operations[id].progress.outcome == Success then 1 else 0)
  }

  /** Rejected input never reaches an event: keys in events are resource keys or empty. */
  predicate CleanEvent(e: Event) {
    && (e.environmentKey == "" || ValidResourceKey(e.environmentKey))
    && (e.resourceKey == "" || ValidResourceKey(e.resourceKey))
  }

  /** An event tells what its operation recorded. */
  predicate FaithfulEvent(db: Db, e: Event) {
    e.operationId in db.operations &&
    var operation := db.operations[e.operationId];
    operation.progress.Completed? && e.outcome == operation.progress.outcome && e.actor == operation.actor
    && (operation.progress.response.ConfigResult? ==> e.revision == operation.progress.resultingRevision)
  }

  ghost predicate OutboxWell(db: Db) {
    && (forall id: string :: EventsWell(db, id))
    && forall e | e in db.outbox :: CleanEvent(e) && FaithfulEvent(db, e)
  }

  lemma CountAppend(outbox: seq<Event>, e: Event, id: string, kind: EventKind)
    ensures Count(outbox + [e], id, kind) == Count(outbox, id, kind) + if e.operationId == id && e.kind == kind then 1
            else 0
  {
    assert (outbox + [e])[..|outbox|] == outbox;
  }

  predicate CompletionWell(c: Completion) {
    && OperationWell(c.id, c.Row())
    && (c.notify <==> c.response.outcome == Success)
    && (c.response.outcome != ValidationFailed ==>
          (c.environmentKey == "" || ValidResourceKey(c.environmentKey))
              && (c.resourceKey == "" || ValidResourceKey(c.resourceKey)))
  }

  lemma FinishKeepsOperations(db: Db, c: Completion)
    requires OperationsWell(db) && CompletionWell(c)
    ensures OperationsWell(Finish(db, c))
  {
    hide OperationWell;
  }

  lemma FinishEvents(db: Db, c: Completion, id: string)
    requires EventsWell(db, id) && CompletionWell(c) && c.id !in db.operations
    ensures EventsWell(Finish(db, c), id)
  {
    hide ResponseWell, ShapeFits, OperationIdOf;
    CountAppend(db.outbox, c.EventFor(Audit), id, Audit);
    CountAppend(db.outbox, c.EventFor(Audit), id, Notification);
    var audited := db.outbox + [c.EventFor(Audit)];
    CountAppend(audited, c.EventFor(Notification), id, Audit);
    CountAppend(audited, c.EventFor(Notification), id, Notification);
    assert audited + [] == audited;
  }

  lemma FinishKeepsOutbox(db: Db, c: Completion)
    requires OutboxWell(db) && CompletionWell(c) && c.id !in db.operations
    ensures OutboxWell(Finish(db, c))
  {
    hide EventsWell, OperationWell, Count, CleanEvent, FaithfulEvent, CompletionWell;
    forall id: string ensures EventsWell(Finish(db, c), id) {
      FinishEvents(db, c, id);
    }
    NewEvents(db, c);
  }

  lemma NewEvents(db: Db, c: Completion)
    requires CompletionWell(c) && c.id !in db.operations
    requires forall e | e in db.outbox :: CleanEvent(e) && FaithfulEvent(db, e)
    ensures forall e | e in Finish(db, c).outbox :: CleanEvent(e) && FaithfulEvent(Finish(db, c), e)
  {
    hide ValidResourceKey, ResponseWell, ShapeFits, OperationIdOf;
  }

  // ----- Histories -----

  function Known(db: Db, binding: Binding, revision: nat): Revision
    requires RevisionId(binding, revision) in db.revisions
  {
    db.revisions[RevisionId(binding, revision)]
  }

  /** The stored revisions of a binding are exactly 1 to its current one. */
  ghost predicate Contiguous(db: Db) {
    && (forall b | b in db.states :: 1 <= db.states[b] < UINT64_LIMIT)
    && (forall b, r | RevisionId(b, r) in db.revisions :: b in db.states && 1 <= r <= db.states[b])
    && (forall b, r: nat | b in db.states && 1 <= r <= db.states[b] :: RevisionId(b, r) in db.revisions)
  }

  predicate SameDocument(a: Revision, b: Revision) {
    a.format == b.format && a.content == b.content
  }

  /** No revision repeats its predecessor. */
  ghost predicate NeighboursDiffer(db: Db) {
    forall b, r: nat | RevisionId(b, r) in db.revisions && RevisionId(b, r + 1) in db.revisions ::
      !SameDocument(Known(db, b, r), Known(db, b, r + 1))
  }

  ghost predicate HasConfig(db: Db, id: string) {
    exists key :: key in db.configs && db.configs[key].id == id
  }

  ghost predicate HasEnvironment(db: Db, id: string) {
    exists key :: key in db.environments && db.environments[key].id == id
  }

  ghost predicate HasState(db: Db, configId: string) {
    exists b :: b in db.states && b.configId == configId
  }

  ghost predicate BindingsWell(db: Db) {
    && (forall b | b in db.states :: HasConfig(db, b.configId) && HasEnvironment(db, b.environmentId))
    && (forall key | key in db.configs :: HasState(db, db.configs[key].id))
    && (forall k, l | k in db.configs && l in db.configs && db.configs[k].id == db.configs[l].id :: k == l)
    && (forall k, l | k in db.environments && l in db.environments
        && db.environments[k].id == db.environments[l].id :: k == l)
  }

  /** The revision came from one successful operation. */
  predicate TracedRevision(db: Db, id: RevisionId) {
    id in db.revisions && db.revisions[id].operationId in db.operations &&
    var progress := db.operations[db.revisions[id].operationId].progress;
    progress.Completed? && progress.outcome == Success && progress.resultingRevision == id.revision
  }

  /** Every revision is the effect of one successful operation, and no operation made two. */
  ghost predicate Traced(db: Db) {
    && (forall id | id in db.revisions :: TracedRevision(db, id))
    && (forall i, j | i in db.revisions && j in db.revisions
        && db.revisions[i].operationId == db.revisions[j].operationId :: i == j)
  }

  ghost predicate HistoryWell(db: Db) {
    Contiguous(db) && NeighboursDiffer(db) && BindingsWell(db) && Traced(db)
  }

  ghost predicate StoreWell(db: Db) {
    OperationsWell(db) && OutboxWell(db) && HistoryWell(db)
  }

  // ----- Finishing an operation leaves histories alone -----

  /** Two databases with the same Configs, environments, states and revisions. */
  predicate SameTables(a: Db, b: Db) {
    a.configs == b.configs && a.environments == b.environments && a.states == b.states && a.revisions == b.revisions
  }

  lemma SameContiguous(db: Db, now: Db)
    requires SameTables(db, now) && Contiguous(db) && NeighboursDiffer(db)
    ensures Contiguous(now) && NeighboursDiffer(now)
  {
    hide SameDocument;
  }

  lemma SameBindings(db: Db, now: Db)
    requires SameTables(db, now) && BindingsWell(db)
    ensures BindingsWell(now)
  {
    forall b | b in now.states ensures HasConfig(now, b.configId) && HasEnvironment(now, b.environmentId) {
      assert HasConfig(db, b.configId) && HasEnvironment(db, b.environmentId);
    }
    forall key | key in now.configs ensures HasState(now, now.configs[key].id) {
      assert HasState(db, db.configs[key].id);
    }
  }

  lemma SameTraced(db: Db, now: Db)
    requires SameTables(db, now) && Traced(db)
    requires forall id | id in db.operations :: id in now.operations && now.operations[id] == db.operations[id]
    ensures Traced(now)
  {
    forall id | id in now.revisions ensures TracedRevision(now, id) {
      assert TracedRevision(db, id);
    }
  }

  lemma FinishKeepsHistory(db: Db, c: Completion)
    requires HistoryWell(db) && c.id !in db.operations
    ensures HistoryWell(Finish(db, c))
  {
    hide Contiguous, NeighboursDiffer, BindingsWell, Traced;
    var now := Finish(db, c);
    SameContiguous(db, now);
    SameBindings(db, now);
    SameTraced(db, now);
  }

  lemma FinishKeeps(db: Db, c: Completion)
    requires StoreWell(db) && CompletionWell(c) && c.id !in db.operations
    ensures StoreWell(Finish(db, c))
  {
    hide OperationsWell, OutboxWell, HistoryWell, CompletionWell, Finish;
    FinishKeepsOperations(db, c);
    FinishKeepsOutbox(db, c);
    FinishKeepsHistory(db, c);
  }

  // ----- Writing a revision -----

  /** When a commit may write the next revision of a binding. */
  ghost predicate Writable(db: Db, request: ConfigCommit, binding: Binding, revision: nat) {
    && HasEnvironment(db, binding.environmentId)
    && (if request.configKey in db.configs then db.configs[request.configKey].id == binding.configId
        else NewConfigId(db, binding.configId))
    && revision == (if binding in db.states then db.states[binding] else 0) + 1 < UINT64_LIMIT
  }

  /** The new revision differs from the one it follows. */
  predicate ChangesDocument(db: Db, binding: Binding, revision: nat, row: Revision) {
    revision <= 1
    || (RevisionId(binding, revision - 1) in db.revisions && !SameDocument(Known(db, binding, revision - 1), row))
  }

  lemma WriteContiguous(db: Db, request: ConfigCommit, meta: Meta, document: Document, binding: Binding, revision: nat)
    requires Contiguous(db) && Writable(db, request, binding, revision)
    ensures Contiguous(WriteRevision(db, request, meta, document, binding, revision))
    ensures RevisionId(binding, revision) !in db.revisions
  {
    hide HasEnvironment, NewConfigId;
    var now := WriteRevision(db, request, meta, document, binding, revision);
    forall b, r | RevisionId(b, r) in now.revisions ensures b in now.states && 1 <= r <= now.states[b] {
      if RevisionId(b, r) != RevisionId(binding, revision) {
        assert RevisionId(b, r) in db.revisions;
      }
    }
    forall b, r: nat | b in now.states && 1 <= r <= now.states[b] ensures RevisionId(b, r) in now.revisions {
      if RevisionId(b, r) != RevisionId(binding, revision) {
        assert b in db.states && r <= db.states[b];
      }
    }
  }

  lemma WriteNeighbours(db: Db, request: ConfigCommit, meta: Meta, document: Document, binding: Binding, revision: nat)
    requires Contiguous(db) && NeighboursDiffer(db) && Writable(db, request, binding, revision)
    requires ChangesDocument(db, binding, revision, NewRevision(request, meta, document))
    ensures NeighboursDiffer(WriteRevision(db, request, meta, document, binding, revision))
  {
    hide HasEnvironment, NewConfigId;
    WriteContiguous(db, request, meta, document, binding, revision);
    var now := WriteRevision(db, request, meta, document, binding, revision);
    forall b, r: nat | RevisionId(b, r) in now.revisions && RevisionId(b, r + 1) in now.revisions
      ensures !SameDocument(Known(now, b, r), Known(now, b, r + 1))
    {
      if !(b == binding && (r == revision || r + 1 == revision)) {
        assert RevisionId(b, r) in db.revisions && RevisionId(b, r + 1) in db.revisions;
        assert !SameDocument(Known(db, b, r), Known(db, b, r + 1));
      }
    }
  }

  lemma WriteReferences(db: Db, request: ConfigCommit, meta: Meta, document: Document, binding: Binding,
                        revision: nat, b: Binding)
    requires BindingsWell(db) && Writable(db, request, binding, revision)
    requires b == binding || b in db.states
    ensures var now := WriteRevision(db, request, meta, document, binding, revision);
            HasConfig(now, b.configId) && HasEnvironment(now, b.environmentId)
  {
    var now := WriteRevision(db, request, meta, document, binding, revision);
    var e :| e in db.environments && db.environments[e].id == b.environmentId;
    assert e in now.environments && now.environments[e].id == b.environmentId;
    if b == binding {
      assert now.configs[request.configKey].id == b.configId;
    } else {
      var k :| k in db.configs && db.configs[k].id == b.configId;
      assert k in now.configs && now.configs[k].id == b.configId;
    }
  }

  lemma WriteBindings(db: Db, request: ConfigCommit, meta: Meta, document: Document, binding: Binding, revision: nat)
    requires BindingsWell(db) && Writable(db, request, binding, revision)
    ensures BindingsWell(WriteRevision(db, request, meta, document, binding, revision))
  {
    hide HasConfig, HasEnvironment;
    var now := WriteRevision(db, request, meta, document, binding, revision);
    forall b | b in now.states ensures HasConfig(now, b.configId) && HasEnvironment(now, b.environmentId) {
      WriteReferences(db, request, meta, document, binding, revision, b);
    }
    forall key | key in now.configs ensures HasState(now, now.configs[key].id) {
      if key in db.configs {
        assert HasState(db, db.configs[key].id);
        var b :| b in db.states && b.configId == db.configs[key].id;
        assert b in now.states;
      } else {
        assert binding in now.states;
      }
    }
  }

  lemma WriteTraced(db: Db, request: ConfigCommit, meta: Meta, document: Document, binding: Binding, revision: nat,
                    c: Completion)
    requires Traced(db) && request.operationId !in db.operations && c.id == request.operationId
    requires RevisionId(binding, revision) !in db.revisions
    requires c.response.ConfigResult? && c.response.outcome == Success && c.revision == revision
    ensures Traced(Finish(WriteRevision(db, request, meta, document, binding, revision), c))
  {
    var now := Finish(WriteRevision(db, request, meta, document, binding, revision), c);
    forall id | id in now.revisions ensures TracedRevision(now, id) {
      if id != RevisionId(binding, revision) {
        assert TracedRevision(db, id);
      }
    }
    forall i, j | i in now.revisions && j in now.revisions
        && now.revisions[i].operationId == now.revisions[j].operationId
      ensures i == j
    {
      assert i in db.revisions ==> TracedRevision(db, i);
      assert j in db.revisions ==> TracedRevision(db, j);
    }
  }

  lemma WriteKeeps(db: Db, request: ConfigCommit, meta: Meta, document: Document, binding: Binding, revision: nat,
                   c: Completion)
    requires StoreWell(db) && Writable(db, request, binding, revision)
    requires ChangesDocument(db, binding, revision, NewRevision(request, meta, document))
    requires CompletionWell(c) && c.id == request.operationId && c.id !in db.operations
    requires c.response.ConfigResult? && c.response.outcome == Success && c.revision == revision
    ensures StoreWell(Finish(WriteRevision(db, request, meta, document, binding, revision), c))
  {
    hide OperationsWell, OutboxWell, Contiguous, NeighboursDiffer, BindingsWell, Traced, SameDocument,
         CompletionWell, Writable, ChangesDocument, NewRevision;
    var written := WriteRevision(db, request, meta, document, binding, revision);
    WriteContiguous(db, request, meta, document, binding, revision);
    WriteNeighbours(db, request, meta, document, binding, revision);
    WriteBindings(db, request, meta, document, binding, revision);
    SameContiguous(written, Finish(written, c));
    SameBindings(written, Finish(written, c));
    WriteTraced(db, request, meta, document, binding, revision, c);
    OperationsOnly(db, written);
    FinishKeepsOperations(written, c);
    FinishKeepsOutbox(written, c);
  }

  lemma OperationsOnly(db: Db, now: Db)
    requires OperationsWell(db) && OutboxWell(db) && now.operations == db.operations && now.outbox == db.outbox
    ensures OperationsWell(now) && OutboxWell(now)
  {
    hide OperationWell, Count;
    forall id: string ensures EventsWell(now, id) {
      assert EventsWell(db, id);
    }
  }
}
