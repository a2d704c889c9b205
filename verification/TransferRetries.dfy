/** Repeating a transfer or a clone answers with the first reply, and an OperationID used for one request
    is refused to every other. The first attempt and its repetitions read and commit at moments of one run,
    with anything in between. */
module TransferRetries {
  import opened Ordering
  import opened ConfigStore
  import opened StoreInvariants
  import opened StoreRuns
  import opened StoreGuarantees
  import opened Transfers

  /** The moments a transfer reads at. */
  datatype Reads = Reads(replay: nat, source: nat, target: nat, earlier: nat) {
    predicate UpTo(i: int) {
      replay <= i && source <= i && target <= i && earlier <= i
    }

    predicate After(i: nat) {
      replay > i && source > i && target > i && earlier > i
    }
  }

  function PreparedAt(codec: Codec, states: seq<Db>, at: Reads, request: ConfigTransfer, action: string,
                      merge: bool): Prepared
    requires at.UpTo(|states| - 1)
  {
    PrepareTransfer(codec, states[at.replay], states[at.source], states[at.target], states[at.earlier], request,
                    action, merge)
  }

  /** Step i of the run, if any, carries out what was prepared. */
  ghost predicate CarriedOut(steps: seq<Step>, i: nat, prepared: Prepared, shell: ConfigCommit, meta: Meta,
                             newId: string, view: Db) {
    match prepared
    case Answer(_) => true
    case Refusal(failure) => i < |steps| && steps[i] == Refuse(shell, meta, failure)
    case Ready(commit, ready) => i < |steps| && steps[i] == Commit(commit, ready, newId, view)
  }

  // ----- What stays readable -----

  /** A revision that was read once can be read, alike, ever after. */
  lemma StaysReadable(codec: Codec, states: seq<Db>, steps: seq<Step>, i: nat, j: nat, environmentKey: string,
                      configKey: string, revision: nat)
    requires IsRun(codec, states, steps) && DbWell(states[0]) && i <= j < |states|
    requires ReadRevision(states[i], environmentKey, configKey, revision).Some?
    ensures ReadRevision(states[j], environmentKey, configKey, revision).Some?
    ensures ReadRevision(states[i], environmentKey, configKey, revision).value.(active := true)
         == ReadRevision(states[j], environmentKey, configKey, revision).value.(active := true)
  {
    hide DbWell, OperationsExtend, VaultExtends;
    RunKeeps(codec, states, steps, i, j);
  }

  /** A recorded reply answers every later request with the recorded digest. */
  lemma RecordAnswers(codec: Codec, states: seq<Db>, steps: seq<Step>, i: nat, j: nat, id: string, digest: Digest,
                      reply: Reply)
    requires IsRun(codec, states, steps) && DbWell(states[0]) && i <= j < |states|
    requires OnRecord(states[i], id, digest, None, reply)
    ensures ReplayOperation(states[j], id, digest) == Some(reply)
    ensures OnRecord(states[j], id, digest, None, reply)
  {
    hide DbWell, Extends, OperationsExtend, OperationIdOf, ShapeFits, ResponseWell;
    RunKeeps(codec, states, steps, i, j);
    ExtendedRecords(states[i], states[j]);
    StillOnRecord(states[i], states[j], id, digest, None, reply);
    WellOperation(states[j], id);
  }

  /** What the replay check answers is on record. */
  lemma AnswerIsRecorded(codec: Codec, states: seq<Db>, steps: seq<Step>, i: nat, id: string, digest: Digest)
    requires IsRun(codec, states, steps) && DbWell(states[0]) && i < |states|
    requires ReplayOperation(states[i], id, digest).Some?
    ensures OnRecord(states[i], id, digest, None, ReplayOperation(states[i], id, digest).value)
  {
    hide DbWell, Extends, OperationIdOf, ShapeFits, ResponseWell;
    RunKeeps(codec, states, steps, i, i);
    WellOperation(states[i], id);
  }

  // ----- Transfers -----

  /** The digest an earlier version of the store recorded for this transfer. */
  function OldDigest(codec: Codec, atSource: Db, atTarget: Db, request: ConfigTransfer, action: string,
                     merge: bool): Option<Digest> {
    var source := ReadRevision(atSource, request.sourceEnvironmentKey, request.sourceConfigKey, request.sourceRevision);
    var target := ReadRevision(atTarget, request.targetEnvironmentKey, request.targetConfigKey, request.targetRevision);
    if CreatesTarget(request, action) || source.None? || target.None? then None
    else
      var content := ContentFor(codec, merge, source.value, target.value);
      if content.Unmergeable? then None
      else
        Some(CommitDigest(FromSource(request, source.value).(content := content.content), action,
                          SourcedMeta(request, action, source.value).source, false))
  }

  /** It never changes once it is there. */
  lemma OldDigestStays(codec: Codec, states: seq<Db>, steps: seq<Step>, b: nat, c: nat, f: nat, g: nat,
                       request: ConfigTransfer, action: string, merge: bool)
    requires IsRun(codec, states, steps) && DbWell(states[0]) && b <= f < |states| && c <= g < |states|
    requires OldDigest(codec, states[b], states[c], request, action, merge).Some?
    ensures OldDigest(codec, states[f], states[g], request, action, merge)
         == OldDigest(codec, states[b], states[c], request, action, merge)
  {
    hide DbWell, IsRun, ReadRevision;
    StaysReadable(codec, states, steps, b, f, request.sourceEnvironmentKey, request.sourceConfigKey,
                  request.sourceRevision);
    StaysReadable(codec, states, steps, c, g, request.targetEnvironmentKey, request.targetConfigKey,
                  request.targetRevision);
  }

  /** The four ways a transfer is prepared, as its replay checks see them. */
  lemma PreparedCases(codec: Codec, first: Db, atSource: Db, atTarget: Db, atReplay: Db, request: ConfigTransfer,
                      action: string,
                      merge: bool)
    ensures var prepared := PrepareTransfer(codec, first, atSource, atTarget, atReplay, request, action, merge);
            var replay := ReplayOperation(first, request.operationId, TransferDigest(action, request));
            var former := OldDigest(codec, atSource, atTarget, request, action, merge);
            var earlier := if former.Some? then ReplayOperation(atReplay, request.operationId, former.value) else None;
            if replay.Some? then prepared == Answer(replay.value)
            else if TransferPreconditions(request, action).Some? then prepared.Refusal?
            else if earlier.Some? then prepared == Answer(earlier.value)
            else if prepared.Ready?
            then prepared.meta.legacyDigest == former
                && prepared.meta.requestDigest == Some(TransferDigest(action, request))
                 && prepared.commit.operationId == request.operationId && prepared.commit.actor == request.actor
            else prepared.Refusal?
  {
    hide ReadRevision, ReplayOperation, TransferPreconditions;
  }

  lemma RunStep(codec: Codec, states: seq<Db>, steps: seq<Step>, i: nat)
    requires IsRun(codec, states, steps) && DbWell(states[0]) && i < |steps|
    ensures states[i + 1] == Apply(codec, states[i], steps[i]) && OperationsWell(states[i])
  {
    hide DbWell, Extends, Apply, OperationsWell;
    RunKeeps(codec, states, steps, i, i);
    RecordsOf(states[i]);
  }

  lemma RecordedDigest(db: Db, id: string, digest: Digest, former: Option<Digest>, reply: Reply)
    requires OnRecord(db, id, digest, former, reply)
    ensures OnRecord(db, id, digest, None, reply) || (former.Some? && OnRecord(db, id, former.value, None, reply))
  {
  }

  /** A transfer recorded under its old digest is found by its second replay check. */
  lemma OldRecordAnswers(codec: Codec, states: seq<Db>, steps: seq<Step>, at: Reads, recorded: nat, again: Reads,
                         request: ConfigTransfer, action: string, merge: bool, reply: Reply)
    requires IsRun(codec, states, steps) && DbWell(states[0]) && again.UpTo(|states| - 1)
    requires at.source <= again.source && at.target <= again.target
    requires recorded <= again.replay && recorded <= again.earlier
    requires OldDigest(codec, states[at.source], states[at.target], request, action, merge).Some?
    requires var former := OldDigest(codec, states[at.source], states[at.target], request, action, merge);
             OnRecord(states[recorded], request.operationId, former.value, None, reply)
    ensures var former := OldDigest(codec, states[at.source], states[at.target], request, action, merge);
            && ReplayOperation(states[again.replay], request.operationId, TransferDigest(action, request)).None?
            && OldDigest(codec, states[again.source], states[again.target], request, action, merge) == former
            && ReplayOperation(states[again.earlier], request.operationId, former.value) == Some(reply)
  {
    hide DbWell, IsRun, ReadRevision;
    var former := OldDigest(codec, states[at.source], states[at.target], request, action, merge).value;
    OldDigestStays(codec, states, steps, at.source, at.target, again.source, again.target, request, action, merge);
    RecordAnswers(codec, states, steps, recorded, again.replay, request.operationId, former, reply);
    RecordAnswers(codec, states, steps, recorded, again.earlier, request.operationId, former, reply);
  }

  /** Once a transfer has returned a reply, repeating it returns the same reply, without changing anything,
      whatever happened to its source and target in between. */
  lemma TransferRetry(codec: Codec, states: seq<Db>, steps: seq<Step>, at: Reads, i: nat, again: Reads,
                      request: ConfigTransfer, action: string, merge: bool, newId: string, view: Db)
    requires IsRun(codec, states, steps) && DbWell(states[0]) && i < |states|
    requires at.UpTo(i) && again.After(i) && again.UpTo(|states| - 1)
    requires var prepared := PreparedAt(codec, states, at, request, action, merge);
             CarriedOut(steps, i, prepared, TransferShell(request), TransferMeta(request, action), newId,
                        view)
    requires var prepared := PreparedAt(codec, states, at, request, action, merge);
             CarryOut(codec, view, states[i], prepared, TransferShell(request), TransferMeta(request, action),
                      newId).1.Returned?
    ensures var prepared := PreparedAt(codec, states, at, request, action, merge);
            var reply := CarryOut(codec, view, states[i], prepared, TransferShell(request),
                                  TransferMeta(request, action),
                                  newId).1;
            PreparedAt(codec, states, again, request, action, merge) == Answer(reply)
  {
    hide DbWell, Extends, IsRun, PrepareTransfer, OldDigest, ReplayOperation, OnRecord, CommitAt, RejectTransfer,
         OperationsWell;
    var prepared := PreparedAt(codec, states, at, request, action, merge);
    var id, digest := request.operationId, TransferDigest(action, request);
    var reply := CarryOut(codec, view, states[i], prepared, TransferShell(request), TransferMeta(request, action),
                          newId).1;
    var former := OldDigest(codec, states[at.source], states[at.target], request, action, merge);
    PreparedCases(codec, states[at.replay], states[at.source], states[at.target], states[at.earlier], request, action,
                  merge);
    ghost var recorded := i;
    match prepared {
      case Answer(_) =>
        if ReplayOperation(states[at.replay], id, digest).Some? {
          AnswerIsRecorded(codec, states, steps, at.replay, id, digest);
          RecordAnswers(codec, states, steps, at.replay, i, id, digest, reply);
        } else {
          AnswerIsRecorded(codec, states, steps, at.earlier, id, former.value);
          RecordAnswers(codec, states, steps, at.earlier, i, id, former.value, reply);
        }
      case Refusal(failure) =>
        RunStep(codec, states, steps, i);
        RefuseLeavesRecord(states[i], TransferShell(request), TransferMeta(request, action), failure);
        recorded := i + 1;
      case Ready(commit, meta) =>
        RunStep(codec, states, steps, i);
        CommitAtLeavesRecord(codec, view, states[i], commit, meta, newId);
        RecordedDigest(states[i + 1], id, digest, former, reply);
        recorded := i + 1;
    }
    if OnRecord(states[recorded], id, digest, None, reply) {
      RecordAnswers(codec, states, steps, recorded, again.replay, id, digest, reply);
    } else {
      OldRecordAnswers(codec, states, steps, at, recorded, again, request, action, merge, reply);
    }
    PreparedCases(codec, states[again.replay], states[again.source], states[again.target], states[again.earlier],
                  request, action, merge);
  }

  /** An OperationID recorded for anything but this transfer refuses it, in all later states. */
  lemma TransferReuseRefused(codec: Codec, states: seq<Db>, steps: seq<Step>, i: nat, at: Reads, k: nat,
                             request: ConfigTransfer, action: string, merge: bool, newId: string, view: Db)
    requires IsRun(codec, states, steps) && DbWell(states[0]) && i <= k < |states|
    requires at.UpTo(|states| - 1) && i <= at.replay && i <= at.source && i <= at.target && i <= at.earlier
    requires ValidOperationId(request.operationId) && ValidActor(request.actor)
    requires request.operationId in states[i].operations
    requires var digest := states[i].operations[request.operationId].digest;
             && digest != TransferDigest(action, request)
             && OldDigest(codec, states[at.source], states[at.target], request, action, merge) != Some(digest)
    ensures var prepared := PreparedAt(codec, states, at, request, action, merge);
            CarryOut(codec, view, states[k], prepared, TransferShell(request), TransferMeta(request, action), newId)
            == (states[k], Failed(OperationReuse))
  {
    hide DbWell, Extends, IsRun, PrepareTransfer, OldDigest, ValidOperationId, ValidActor, TransferPreconditions,
         Settle, Decide, Validate;
    PreparedCases(codec, states[at.replay], states[at.source], states[at.target], states[at.earlier], request, action,
                  merge);
    SameOperation(codec, states, steps, i, at.replay, request.operationId);
    SameOperation(codec, states, steps, i, at.earlier, request.operationId);
    SameOperation(codec, states, steps, i, k, request.operationId);
  }

  lemma SameOperation(codec: Codec, states: seq<Db>, steps: seq<Step>, i: nat, j: nat, id: string)
    requires IsRun(codec, states, steps) && DbWell(states[0]) && i <= j < |states| && id in states[i].operations
    ensures id in states[j].operations && states[j].operations[id] == states[i].operations[id]
  {
    hide DbWell, IsRun, Extends;
    RunKeeps(codec, states, steps, i, j);
    ExtendedRecords(states[i], states[j]);
  }

  // ----- Clones -----

  lemma PreparedCloneCases(first: Db, atSource: Db, request: ConfigClone)
    ensures var prepared := PrepareClone(first, atSource, request);
            var replay := ReplayOperation(first, request.operationId, CloneDigest(request));
            if replay.Some? then prepared == Answer(replay.value)
            else if prepared.Ready?
            then prepared.meta.legacyDigest.None? && prepared.meta.requestDigest == Some(CloneDigest(request))
                 && prepared.commit.operationId == request.operationId && prepared.commit.actor == request.actor
            else prepared.Refusal?
  {
    hide ReadActiveRevision, ReplayOperation, InvalidKey, CurrentRevision;
  }

  /** Once a clone has returned a reply, repeating it returns the same reply without changing anything. */
  lemma CloneRetry(codec: Codec, states: seq<Db>, steps: seq<Step>, a: nat, b: nat, i: nat, e: nat, f: nat,
                   request: ConfigClone, newId: string, view: Db)
    requires IsRun(codec, states, steps) && DbWell(states[0])
    requires a <= i && b <= i && i < e < |states| && i < f < |states|
    requires CarriedOut(steps, i, PrepareClone(states[a], states[b], request), CloneShell(request),
                        CloneMeta(request), newId, view)
    requires CarryOut(codec, view, states[i], PrepareClone(states[a], states[b], request), CloneShell(request),
                      CloneMeta(request),
                      newId).1.Returned?
    ensures PrepareClone(states[e], states[f], request)
         == Answer(CarryOut(codec, view, states[i], PrepareClone(states[a], states[b], request), CloneShell(request),
                            CloneMeta(request),
                            newId).1)
  {
    hide DbWell, Extends, IsRun, PrepareClone, ReplayOperation, CommitAt, RejectTransfer, OperationsWell, OnRecord;
    var prepared := PrepareClone(states[a], states[b], request);
    var id, digest := request.operationId, CloneDigest(request);
    var reply := CarryOut(codec, view, states[i], prepared, CloneShell(request), CloneMeta(request), newId).1;
    PreparedCloneCases(states[a], states[b], request);
    match prepared {
      case Answer(_) =>
        AnswerIsRecorded(codec, states, steps, a, id, digest);
        RecordAnswers(codec, states, steps, a, e, id, digest, reply);
      case Refusal(failure) =>
        RunStep(codec, states, steps, i);
        RefuseLeavesRecord(states[i], CloneShell(request), CloneMeta(request), failure);
        RecordAnswers(codec, states, steps, i + 1, e, id, digest, reply);
      case Ready(commit, meta) =>
        RunStep(codec, states, steps, i);
        CommitAtLeavesRecord(codec, view, states[i], commit, meta, newId);
        RecordAnswers(codec, states, steps, i + 1, e, id, digest, reply);
    }
    PreparedCloneCases(states[e], states[f], request);
  }

  /** An OperationID recorded for anything but this clone refuses it, in all later states. */
  lemma CloneReuseRefused(codec: Codec, states: seq<Db>, steps: seq<Step>, i: nat, e: nat, f: nat, k: nat,
                          request: ConfigClone, newId: string, view: Db)
    requires IsRun(codec, states, steps) && DbWell(states[0]) && i <= e < |states| && f < |states| && i <= k < |states|
    requires ValidOperationId(request.operationId) && ValidActor(request.actor)
    requires request.operationId in states[i].operations
    requires states[i].operations[request.operationId].digest != CloneDigest(request)
    ensures CarryOut(codec, view, states[k], PrepareClone(states[e], states[f], request), CloneShell(request),
                     CloneMeta(request), newId)
         == (states[k], Failed(OperationReuse))
  {
    hide DbWell, Extends, IsRun, PrepareClone, ValidOperationId, ValidActor, Settle, Decide, Validate;
    PreparedCloneCases(states[e], states[f], request);
    SameOperation(codec, states, steps, i, e, request.operationId);
    SameOperation(codec, states, steps, i, k, request.operationId);
  }
}
