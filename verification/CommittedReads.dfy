/** From a commit to the reads after it: as long as the revision a commit has added is the current one, every
    read of the Config that returns content has resolved the committed document. */
module CommittedReads {
  import opened Ordering
  import opened References
  import opened ConfigStore
  import opened StoreInvariants
  import opened CommitViews
  import opened StoreRuns
  import opened StoreGuarantees
  import opened CommitMeaning
  import opened ConditionalRead

  /** The step is a commit whose request is new and succeeds. */
  predicate Succeeds(codec: Codec, db: Db, step: Step) {
    && step.Commit? && step.request.operationId !in db.operations
    && var reply := ReplyTo(codec, db, step).value;
       reply.Returned? && reply.response.outcome == Success
  }

  /** The row that the commit of a request stores. */
  function StoredRow(codec: Codec, step: Step): Revision
    requires step.Commit? && Accepts(codec, step.request)
  {
    Revision(step.request.format, Canonical(codec, step.request).content, Canonical(codec, step.request).references,
             step.request.operationId, step.request.actor, step.meta.source)
  }

  lemma FreshIsValid(codec: Codec, view: Db, db: Db, request: ConfigCommit, meta: Meta, newId: string)
    requires CommitAt(codec, view, db, request, meta, newId).1.Returned?
    ensures ValidOperationId(request.operationId) && ValidActor(request.actor)
  {
    hide Validate, ValidOperationId, ValidActor, Decide, Settle, Begin;
  }

  lemma SuccessPuts(codec: Codec, db: Db, step: Step)
    requires StoreWell(db) && Enabled(db, step) && Succeeds(codec, db, step)
    ensures var now, request := Apply(codec, db, step), step.request;
            && Accepts(codec, request) && Puts(codec, now, request, step.meta)
            && request.environmentKey in now.environments && request.configKey in now.configs
  {
    hide StoreWell, SeenBefore, CommitAt, Accepts, Puts, ValidOperationId, ValidActor, Answers,
         TablesUntouched, Validate;
    FreshIsValid(codec, step.view, db, step.request, step.meta, step.newId);
    CommitMeans(codec, step.view, db, step.request, step.meta, step.newId);
    AddedIsCurrent(codec, db, Apply(codec, db, step), step.request, step.meta);
  }

  /** The row of a revision stays what it is. */
  lemma StillCurrent(was: Db, now: Db, environmentKey: string, configKey: string)
    requires HistoryExtends(was, now) && environmentKey in was.environments && configKey in was.configs
    requires CurrentDocument(was, environmentKey, configKey).Some?
    requires CurrentRevision(now, environmentKey, configKey) == CurrentRevision(was, environmentKey, configKey)
    ensures CurrentDocument(now, environmentKey, configKey) == CurrentDocument(was, environmentKey, configKey)
  {
  }

  lemma HistoryPart(was: Db, now: Db)
    requires Extends(was, now)
    ensures HistoryExtends(was, now)
  {
    hide OperationsExtend, HistoryExtends, VaultExtends;
  }

  /** As long as the revision after the one it expected is current, that holds what the commit stored. */
  lemma CommittedIsCurrent(codec: Codec, states: seq<Db>, steps: seq<Step>, i: nat, j: nat)
    requires IsRun(codec, states, steps) && DbWell(states[0]) && i < j < |states|
    requires steps[i].Commit? && Succeeds(codec, states[i], steps[i])
    ensures var request := steps[i].request;
            && Accepts(codec, request)
            && (CurrentRevision(states[j], request.environmentKey, request.configKey) == request.expectedRevision + 1
                ==> CurrentDocument(states[j], request.environmentKey, request.configKey)
                    == Some(StoredRow(codec, steps[i])))
  {
    hide DbWell, Extends, HistoryExtends, Enabled, Apply, Accepts, CurrentRevision, CurrentDocument, Succeeds;
    RunKeeps(codec, states, steps, i, i);
    RunKeeps(codec, states, steps, i + 1, j);
    StorePart(states[i]);
    assert Enabled(states[i], steps[i]) && states[i + 1] == Apply(codec, states[i], steps[i]);
    SuccessPuts(codec, states[i], steps[i]);
    HistoryPart(states[i + 1], states[j]);
    var request := steps[i].request;
    if CurrentRevision(states[j], request.environmentKey, request.configKey) == request.expectedRevision + 1 {
      StillCurrent(states[i + 1], states[j], request.environmentKey, request.configKey);
    }
  }

  /** Then whatever a read answers with content, whoever reads under whatever key, is the committed document with
      what its references stand for at the moment of the read. */
  lemma CommittedIsRead(codec: Codec, states: seq<Db>, steps: seq<Step>, i: nat, j: nat, reader: Reader,
                        master: string, scope: Option<Scope>, ifNoneMatch: string, result: ReadResult)
    requires IsRun(codec, states, steps) && DbWell(states[0]) && i < j < |states|
    requires steps[i].Commit? && Succeeds(codec, states[i], steps[i])
    requires var request := steps[i].request;
             && CurrentRevision(states[j], request.environmentKey, request.configKey) == request.expectedRevision + 1
             && ReadAnswers(reader, master, states[j], request.environmentKey, request.configKey, scope, ifNoneMatch,
                            result)
             && result.Resolved?
    ensures var request := steps[i].request;
            && Accepts(codec, request) && request.environmentKey in states[j].environments
            && result.revision == request.expectedRevision + 1
            && exists values ::
                 && Looked(reader, master, states[j], states[j].environments[request.environmentKey].id,
                           Canonical(codec, request).references, values)
                 && reader.resolve(request.format, Canonical(codec, request).content, values) == Some(result.content)
  {
    hide DbWell, IsRun, Accepts, CurrentRevision, CurrentDocument, Succeeds, Looked, TagsVersions, Readable, Intact,
         InScope;
    CommittedIsCurrent(codec, states, steps, i, j);
  }
}
