/** Runs of the store: Config and Environment requests interleaved with Vault commits and key
    rotations, in any order. A Config commit may read environments, contents and the Vault from any
    earlier moment. A Vault commit is a generic step that adds one immutable revision and advances its
    item. */
module StoreRuns {
  import opened Ordering
  import opened References
  import opened Encoding
  import opened VaultCrypto
  import opened ConfigStore
  import opened StoreInvariants
  import opened StoreSteps
  import opened CommitViews
  import KeyRotation
  import Etags

  // ----- Vault rows -----

  type RowKey = KeyRotation.RowKey

  function DecryptVault(master: string, key: RowKey, row: VaultRow): Result<string> {
    KeyRotation.DecryptRow(master, KeyRotation.VaultRevisions, key, row.row)
  }

  function CurrentRow(item: VaultItem): RowKey {
    KeyRotation.RowKey(item.id, item.currentRevision)
  }

  ghost predicate AllDecrypt(master: string, rows: map<RowKey, VaultRow>) {
    forall k | k in rows :: DecryptVault(master, k, rows[k]).Ok?
  }

  ghost predicate HasItem(db: Db, key: RowKey) {
    exists k :: k in db.vaultItems && db.vaultItems[k].id == key.id && key.revision <= db.vaultItems[k].currentRevision
  }

  ghost predicate ItemsWell(db: Db) {
    && (forall k | k in db.vaultItems ::
          k.Valid() && |db.vaultItems[k].id| == 16 && db.vaultItems[k].currentRevision < UINT64_LIMIT
          && CurrentRow(db.vaultItems[k]) in db.vaultRows)
    && (forall k, l | k in db.vaultItems && l in db.vaultItems && db.vaultItems[k].id == db.vaultItems[l].id :: k == l)
    && (forall row | row in db.vaultRows :: HasItem(db, row))
  }

  /** The records all decrypt under the one key that the sentinel verifies. */
  ghost predicate VaultWell(db: Db) {
    ItemsWell(db) && exists master :: VerifySentinel(master, db.sentinel) && AllDecrypt(master, db.vaultRows)
  }

  ghost predicate DbWell(db: Db) {
    StoreWell(db) && VaultWell(db)
  }

  // ----- Steps -----

  datatype Step =
    | Commit(request: ConfigCommit, meta: Meta, newId: string, view: Db)
    | Refuse(request: ConfigCommit, meta: Meta, failure: Failure)
    | Lifecycle(lifecycle: LifecycleChange)
    | Environments(change: EnvironmentChange, newId: string)
    | PutVault(key: Etags.ItemKey, itemId: string, row: VaultRow)
    | ArchiveVault(key: Etags.ItemKey, archived: bool)
    | Rotate(master: string, next: string, rows: map<RowKey, VaultRow>, sentinel: EncryptedSentinel)

  /** The revision a Vault commit is about to add. */
  function NextVaultRow(db: Db, key: Etags.ItemKey, itemId: string): RowKey {
    if key in db.vaultItems then KeyRotation.RowKey(db.vaultItems[key].id, db.vaultItems[key].currentRevision + 1)
    else KeyRotation.RowKey(itemId, 1)
  }

  ghost predicate SealedFor(db: Db, key: RowKey, row: VaultRow) {
    exists master :: VerifySentinel(master, db.sentinel) && DecryptVault(master, key, row).Ok?
  }

  /** A rotation as KeyRotation.Store.RotateMasterKey carries it out on the Vault revisions. */
  ghost predicate RowsRewrapped(master: string, next: string, was: map<RowKey, VaultRow>, rows: map<RowKey, VaultRow>) {
    && rows.Keys == was.Keys
    && forall k | k in was ::
         && rows[k].fields == was[k].fields && rows[k].bindings == was[k].bindings
         && KeyRotation.RowRewrapped(master, next, KeyRotation.VaultRevisions, k, was[k].row, rows[k].row)
  }

  ghost predicate Enabled(db: Db, step: Step) {
    match step
    case Commit(request, meta, _, view) => MetaWell(request, meta) && SeenBefore(view, db)
    case Refuse(request, meta, failure) => MetaWell(request, meta) && failure.Class() == ErrValidation
    case Lifecycle(_) => true
    case Environments(_, _) => true
    case PutVault(key, itemId, row) =>
      && key.Valid() && NextVaultRow(db, key, itemId).revision < UINT64_LIMIT
      && (key !in db.vaultItems ==> |itemId| == 16 && NewItemId(db, itemId))
      && SealedFor(db, NextVaultRow(db, key, itemId), row)
    case ArchiveVault(key, _) => key in db.vaultItems
    case Rotate(master, next, rows, sentinel) =>
      && VerifySentinel(master, db.sentinel) && RowsRewrapped(master, next, db.vaultRows, rows)
      && forall k :: VerifySentinel(k, sentinel) <==> k == next
  }

  ghost predicate NewItemId(db: Db, itemId: string) {
    forall k | k in db.vaultItems :: db.vaultItems[k].id != itemId
  }

  function PutRow(db: Db, key: Etags.ItemKey, itemId: string, row: VaultRow): Db {
    var at := NextVaultRow(db, key, itemId);
    var archived := key in db.vaultItems && db.vaultItems[key].archived;
    db.(vaultItems := db.vaultItems[key := VaultItem(at.id, at.revision, archived)],
        vaultRows := db.vaultRows[at := row])
  }

  function Apply(codec: Codec, db: Db, step: Step): Db {
    match step
    case Commit(request, meta, newId, view) => CommitAt(codec, view, db, request, meta, newId).0
    case Refuse(request, meta, failure) => RejectTransfer(db, request, meta, failure).0
    case Lifecycle(request) => ChangeLifecycle(db, request).0
    case Environments(request, newId) => ChangeEnvironment(db, request, newId).0
    case PutVault(key, itemId, row) => PutRow(db, key, itemId, row)
    case ArchiveVault(key, archived) =>
      if key in db.vaultItems then db.(vaultItems := db.vaultItems[key := db.vaultItems[key].(archived := archived)])
          else db
    case Rotate(_, _, rows, sentinel) => db.(vaultRows := rows, sentinel := sentinel)
  }

  // ----- Nothing recorded is ever altered -----

  ghost predicate OperationsExtend(was: Db, now: Db) {
    && (forall id | id in was.operations :: id in now.operations && now.operations[id] == was.operations[id])
    && was.outbox <= now.outbox
  }

  ghost predicate HistoryExtends(was: Db, now: Db) {
    && (forall id | id in was.revisions :: id in now.revisions && now.revisions[id] == was.revisions[id])
    && (forall b | b in was.states :: b in now.states && was.states[b] <= now.states[b])
    && (forall k | k in was.configs ::
         k in now.configs
         && now.configs[k].(archived := was.configs[k].archived) == was.configs[k])
    && (forall k | k in was.environments :: k in now.environments && now.environments[k].id == was.environments[k].id)
  }

  /** The row shows the same plain text, each time under the key its sentinel verifies. */
  ghost predicate SamePlainText(was: Db, now: Db, key: RowKey) {
    key in was.vaultRows && key in now.vaultRows &&
    forall m, n | VerifySentinel(m, was.sentinel) && VerifySentinel(n, now.sentinel) ::
      DecryptVault(m, key, was.vaultRows[key]) == DecryptVault(n, key, now.vaultRows[key])
  }

  ghost predicate VaultExtends(was: Db, now: Db) {
    && (forall k | k in was.vaultItems ::
          k in now.vaultItems && now.vaultItems[k].id == was.vaultItems[k].id
          && was.vaultItems[k].currentRevision <= now.vaultItems[k].currentRevision)
    && (forall k | k in was.vaultRows ::
          k in now.vaultRows && now.vaultRows[k].fields == was.vaultRows[k].fields
          && now.vaultRows[k].bindings == was.vaultRows[k].bindings && SamePlainText(was, now, k))
  }

  ghost predicate Extends(was: Db, now: Db) {
    OperationsExtend(was, now) && HistoryExtends(was, now) && VaultExtends(was, now)
  }

  lemma SentinelKeyUnique(db: Db)
    ensures forall m, n | VerifySentinel(m, db.sentinel) && VerifySentinel(n, db.sentinel) :: m == n
  {
    hide VerifySentinel;
    forall m, n | VerifySentinel(m, db.sentinel) && VerifySentinel(n, db.sentinel) ensures m == n {
      OneSentinelKey(m, n, db.sentinel);
    }
  }

  /** Steps that leave the Vault alone extend it. */
  lemma VaultUntouched(was: Db, now: Db)
    requires now.vaultItems == was.vaultItems && now.vaultRows == was.vaultRows && now.sentinel == was.sentinel
    ensures VaultExtends(was, now)
    ensures VaultWell(was) ==> VaultWell(now)
  {
    hide VerifySentinel, AllDecrypt, HasItem, SamePlainText;
    SamePlain(was, now);
    if VaultWell(was) {
      forall row | row in now.vaultRows ensures HasItem(now, row) {
        assert HasItem(was, row);
        SameItem(was, now, row);
      }
      var master :| VerifySentinel(master, was.sentinel) && AllDecrypt(master, was.vaultRows);
      assert AllDecrypt(master, now.vaultRows);
    }
  }

  lemma ExtendsSelf(db: Db)
    ensures Extends(db, db)
  {
    hide SamePlainText;
    VaultUntouched(db, db);
  }

  /** A step that adds to the operations and histories and leaves the Vault alone. */
  ghost predicate Recorded(was: Db, now: Db) {
    && OperationsExtend(was, now) && HistoryExtends(was, now)
    && now.vaultItems == was.vaultItems && now.vaultRows == was.vaultRows && now.sentinel == was.sentinel
  }

  /** The tables a transaction may change before it finishes its operation. */
  ghost predicate Prepared(was: Db, now: Db) {
    && HistoryExtends(was, now)
    && now == was.(configs := now.configs, environments := now.environments, states := now.states,
                   revisions := now.revisions)
  }

  lemma RecordedSelf(db: Db)
    ensures Recorded(db, db)
  {
  }

  lemma FinishRecords(db: Db, changed: Db, c: Completion)
    requires Prepared(db, changed) && c.id !in db.operations
    ensures Recorded(db, Finish(changed, c))
  {
    hide HistoryExtends;
    FinishHistory(db, changed, c);
    assert changed.outbox <= Finish(changed, c).outbox;
  }

  lemma FinishHistory(db: Db, changed: Db, c: Completion)
    requires HistoryExtends(db, changed)
    ensures HistoryExtends(db, Finish(changed, c))
  {
  }

  lemma UnchangedPrepared(db: Db)
    ensures Prepared(db, db)
  {
  }

  lemma WritePrepared(db: Db, request: ConfigCommit, meta: Meta, document: Document, binding: Binding, revision: nat)
    requires Contiguous(db) && Writable(db, request, binding, revision)
    ensures Prepared(db, WriteRevision(db, request, meta, document, binding, revision))
  {
    hide HasEnvironment, Contiguous, NewConfigId;
    WriteContiguous(db, request, meta, document, binding, revision);
  }

  lemma ConfigPrepared(db: Db, key: string, archived: bool)
    requires key in db.configs
    ensures Prepared(db, db.(configs := db.configs[key := db.configs[key].(archived := archived)]))
  {
  }

  lemma EnvironmentPrepared(db: Db, key: string, env: Environment)
    requires key in db.environments ==> env.id == db.environments[key].id
    ensures Prepared(db, db.(environments := db.environments[key := env]))
  {
  }

  lemma CommitRecords(codec: Codec, db: Db, request: ConfigCommit, meta: Meta, newId: string)
    requires StoreWell(db)
    ensures Recorded(db, CommitConfig(codec, db, request, meta, newId).0)
  {
    hide StoreWell, Validate, Decide, DigestOf, ValidOperationId, Recorded, Contiguous, BindingsWell, Writable,
         ChangesDocument,
         Prepared, Finish, WriteRevision;
    RecordedSelf(db);
    UnchangedPrepared(db);
    if Begin(db, request.operationId, DigestOf(request, meta), meta.legacyDigest).Fresh? {
      var validated := Validate(codec, request);
      var decision := Decide(db, request, meta, validated, newId);
      Histories(db);
      match decision
      case Reject(outcome, failure) =>
        FinishRecords(db, db, ConfigCompletion(request, meta, DigestOf(request, meta),
                                               ConfigResult(outcome, 0, [], Some(failure)),
                                               EventName(meta, OutcomeText(outcome)), false));
      case Keep(revision, warnings) =>
        FinishRecords(db, db, ConfigCompletion(request, meta, DigestOf(request, meta),
                                               ConfigResult(NoChange, revision, warnings, None),
                                               EventName(meta, "no_change"), false));
      case Advance(binding, revision, warnings) =>
        DecideAdvances(codec, db, request, meta, newId);
        WritePrepared(db, request, meta, validated.document, binding, revision);
        FinishRecords(db, WriteRevision(db, request, meta, validated.document, binding, revision),
                      ConfigCompletion(request, meta, DigestOf(request, meta),
                                       ConfigResult(Success, revision, warnings, None),
                                       SuccessEvent(meta, revision), true));
      case Abandon =>
    }
  }

  lemma CommitAtRecords(codec: Codec, view: Db, db: Db, request: ConfigCommit, meta: Meta, newId: string)
    requires StoreWell(db) && SeenBefore(view, db)
    ensures Recorded(db, CommitAt(codec, view, db, request, meta, newId).0)
  {
    hide StoreWell, SeenBefore, CommitAt, CommitConfig, Overtaken, AsSeen, Recorded, ValidOperationId, ValidActor;
    var key := request.environmentKey;
    var seen := AsSeen(view, db, key);
    LateCommit(codec, view, db, request, meta, newId);
    RecordedSelf(db);
    AsSeenWell(view, db, key);
    CommitRecords(codec, seen, request, meta, newId);
    RestoredRecords(view, db, key, CommitConfig(codec, seen, request, meta, newId).0);
  }

  lemma RestoredRecords(view: Db, db: Db, key: string, now: Db)
    requires Recorded(AsSeen(view, db, key), now)
    ensures Recorded(db, Restored(now, db))
  {
  }

  lemma RefuseRecords(db: Db, request: ConfigCommit, meta: Meta, failure: Failure)
    ensures Recorded(db, RejectTransfer(db, request, meta, failure).0)
  {
    hide DigestOf, Recorded, Prepared, Finish;
    RecordedSelf(db);
    UnchangedPrepared(db);
    if Begin(db, request.operationId, DigestOf(request, meta), None).Fresh? {
      FinishRecords(db, db, ConfigCompletion(request, meta, DigestOf(request, meta),
                                             ConfigResult(ValidationFailed, 0, [], Some(failure)),
                                             EventName(meta, OutcomeText(ValidationFailed)), false));
    }
  }

  lemma FailLifecycleRecords(db: Db, request: LifecycleChange, eventType: string)
    requires request.operationId !in db.operations
    ensures Recorded(db, FailLifecycle(db, request, eventType).0)
  {
    hide Recorded, Prepared, Finish;
    UnchangedPrepared(db);
    FinishRecords(db, db, LifecycleCompletion(request, LifecycleResult(ValidationFailed, request.key, false),
                                              eventType, false));
  }

  lemma LifecycleRecords(db: Db, request: LifecycleChange)
    ensures Recorded(db, ChangeLifecycle(db, request).0)
  {
    hide ValidResourceKey, ValidOperationId, Recorded, Prepared, Finish, FailLifecycle;
    RecordedSelf(db);
    if Begin(db, request.operationId, LifecycleDigest(request), None).Fresh? {
      FailLifecycleRecords(db, request, "config.validation_failed");
      FailLifecycleRecords(db, request, "config.not_found");
      if request.key in db.configs {
        var archive := request.action == "archive";
        var changes := db.configs[request.key].archived != archive;
        ConfigPrepared(db, request.key, archive);
        FinishRecords(db, db.(configs := db.configs[request.key := db.configs[request.key].(archived := archive)]),
                      LifecycleCompletion(request, LifecycleResult(if changes then Success else NoChange, request.key,
                                                                   archive),
                                          if archive then "config.archived" else "config.unarchived", changes));
      }
    }
  }

  lemma FailEnvironmentRecords(db: Db, request: EnvironmentChange, outcome: Outcome, eventType: string)
    requires request.operationId !in db.operations
    ensures Recorded(db, FailEnvironment(db, request, outcome, eventType).0)
  {
    hide Recorded, Prepared, Finish;
    UnchangedPrepared(db);
    FinishRecords(db, db, EnvironmentCompletion(request, EnvironmentResult(outcome, request.key, "", false),
                                                eventType, false));
  }

  lemma SetEnvironmentRecords(db: Db, request: EnvironmentChange, env: Environment, outcome: Outcome)
    requires request.operationId !in db.operations
    requires request.key in db.environments ==> env.id == db.environments[request.key].id
    ensures Recorded(db, SetEnvironment(db, request, env, outcome).0)
  {
    hide Recorded, Prepared, Finish;
    EnvironmentPrepared(db, request.key, env);
    FinishRecords(db, db.(environments := db.environments[request.key := env]),
                  EnvironmentCompletion(request, EnvironmentResult(outcome, request.key, env.name, env.archived),
                                        "environment." + request.action, outcome == Success));
  }

  lemma EnvironmentRecords(db: Db, request: EnvironmentChange, newId: string)
    ensures Recorded(db, ChangeEnvironment(db, request, newId).0)
  {
    hide ValidOperationId, ValidEnvironmentChange, Recorded, FailEnvironment, SetEnvironment, NewEnvironmentId;
    RecordedSelf(db);
    if Begin(db, request.operationId, EnvironmentDigest(request), None).Fresh? {
      forall outcome, eventType ensures Recorded(db, FailEnvironment(db, request, outcome, eventType).0) {
        FailEnvironmentRecords(db, request, outcome, eventType);
      }
      forall env: Environment, outcome | request.key in db.environments ==> env.id == db.environments[request.key].id
        ensures Recorded(db, SetEnvironment(db, request, env, outcome).0)
      {
        SetEnvironmentRecords(db, request, env, outcome);
      }
    }
  }

  lemma RecordsUntouched(was: Db, now: Db)
    requires now == was.(vaultItems := now.vaultItems, vaultRows := now.vaultRows, sentinel := now.sentinel)
    ensures OperationsExtend(was, now) && HistoryExtends(was, now)
  {
  }

  lemma StoreUntouched(was: Db, now: Db)
    requires now == was.(vaultItems := now.vaultItems, vaultRows := now.vaultRows, sentinel := now.sentinel)
    requires StoreWell(was)
    ensures StoreWell(now)
  {
    hide Contiguous, NeighboursDiffer, OperationsWell, OutboxWell, BindingsWell, Traced;
    SameContiguous(was, now);
    SameBindings(was, now);
    SameTraced(was, now);
    OperationsOnly(was, now);
  }

  lemma PutItems(db: Db, key: Etags.ItemKey, itemId: string, row: VaultRow)
    requires ItemsWell(db) && Enabled(db, PutVault(key, itemId, row))
    ensures var now := PutRow(db, key, itemId, row);
            && now.vaultRows == db.vaultRows[NextVaultRow(db, key, itemId) := row]
            && (forall k | k in now.vaultItems ::
                  k.Valid() && |now.vaultItems[k].id| == 16 && now.vaultItems[k].currentRevision < UINT64_LIMIT
                  && CurrentRow(now.vaultItems[k]) in now.vaultRows)
            && forall k, l | k in now.vaultItems && l in now.vaultItems
                             && now.vaultItems[k].id == now.vaultItems[l].id :: k == l
  {
    hide SealedFor, HasItem;
  }

  lemma PutKeepsItems(db: Db, key: Etags.ItemKey, itemId: string, row: VaultRow)
    requires ItemsWell(db) && Enabled(db, PutVault(key, itemId, row))
    ensures NextVaultRow(db, key, itemId) !in db.vaultRows
    ensures ItemsWell(PutRow(db, key, itemId, row))
  {
    hide SealedFor, HasItem, PutRow;
    var now := PutRow(db, key, itemId, row);
    NextRowIsNew(db, key, itemId, row);
    PutItems(db, key, itemId, row);
    forall r | r in now.vaultRows ensures HasItem(now, r) {
      PutHasItem(db, key, itemId, row, r);
    }
  }

  lemma NextRowIsNew(db: Db, key: Etags.ItemKey, itemId: string, row: VaultRow)
    requires ItemsWell(db) && Enabled(db, PutVault(key, itemId, row))
    ensures NextVaultRow(db, key, itemId) !in db.vaultRows
  {
    hide SealedFor;
    assert !HasItem(db, NextVaultRow(db, key, itemId));
  }

  lemma PutHasItem(db: Db, key: Etags.ItemKey, itemId: string, row: VaultRow, r: RowKey)
    requires r == NextVaultRow(db, key, itemId) || HasItem(db, r)
    requires key in db.vaultItems || NewItemId(db, itemId)
    ensures HasItem(PutRow(db, key, itemId, row), r)
  {
    var now := PutRow(db, key, itemId, row);
    if r == NextVaultRow(db, key, itemId) {
      assert now.vaultItems[key].id == r.id;
    } else {
      var k :| k in db.vaultItems && db.vaultItems[k].id == r.id && r.revision <= db.vaultItems[k].currentRevision;
      assert k in now.vaultItems && now.vaultItems[k].id == r.id && r.revision <= now.vaultItems[k].currentRevision;
    }
  }

  lemma PutKeeps(db: Db, key: Etags.ItemKey, itemId: string, row: VaultRow)
    requires VaultWell(db) && Enabled(db, PutVault(key, itemId, row))
    ensures VaultWell(PutRow(db, key, itemId, row)) && VaultExtends(db, PutRow(db, key, itemId, row))
  {
    hide VerifySentinel, DecryptVault, ItemsWell, VaultExtends, NextVaultRow;
    var at := NextVaultRow(db, key, itemId);
    var now := PutRow(db, key, itemId, row);
    PutKeepsItems(db, key, itemId, row);
    PutExtends(db, key, itemId, row);
    SentinelKeyUnique(db);
    var master :| VerifySentinel(master, db.sentinel) && AllDecrypt(master, db.vaultRows);
    assert DecryptVault(master, at, row).Ok?;
    assert AllDecrypt(master, now.vaultRows);
  }

  lemma PutExtends(db: Db, key: Etags.ItemKey, itemId: string, row: VaultRow)
    requires NextVaultRow(db, key, itemId) !in db.vaultRows
    ensures VaultExtends(db, PutRow(db, key, itemId, row))
  {
    hide VerifySentinel, DecryptVault, ItemsWell;
    SentinelKeyUnique(db);
  }

  lemma ArchiveKeeps(db: Db, now: Db, key: Etags.ItemKey, archived: bool)
    requires VaultWell(db) && key in db.vaultItems
    requires now == db.(vaultItems := db.vaultItems[key := db.vaultItems[key].(archived := archived)])
    ensures VaultWell(now) && VaultExtends(db, now)
  {
    hide VerifySentinel, AllDecrypt, ItemsWell, SamePlainText;
    SamePlain(db, now);
    var master :| VerifySentinel(master, db.sentinel) && AllDecrypt(master, db.vaultRows);
    assert AllDecrypt(master, now.vaultRows);
    ArchiveKeepsItems(db, now, key, archived);
  }

  /** The same rows under the same sentinel. */
  lemma SamePlain(db: Db, now: Db)
    requires now.vaultRows == db.vaultRows && now.sentinel == db.sentinel
    ensures forall k | k in db.vaultRows :: SamePlainText(db, now, k)
  {
    hide VerifySentinel, DecryptVault;
    SentinelKeyUnique(db);
  }

  lemma ArchiveKeepsItems(db: Db, now: Db, key: Etags.ItemKey, archived: bool)
    requires ItemsWell(db) && key in db.vaultItems
    requires now == db.(vaultItems := db.vaultItems[key := db.vaultItems[key].(archived := archived)])
    ensures ItemsWell(now)
  {
    hide HasItem, Etags.ItemKey.Valid;
    assert now.vaultItems.Keys == db.vaultItems.Keys;
    assert forall k | k in now.vaultItems :: now.vaultItems[k].id == db.vaultItems[k].id
                                             && CurrentRow(now.vaultItems[k]) == CurrentRow(db.vaultItems[k]);
    forall r | r in now.vaultRows ensures HasItem(now, r) {
      assert HasItem(db, r);
      SameItem(db, now, r);
    }
  }

  lemma SameItem(db: Db, now: Db, r: RowKey)
    requires HasItem(db, r) && now.vaultItems.Keys == db.vaultItems.Keys
    requires forall k | k in db.vaultItems ::
               now.vaultItems[k].id == db.vaultItems[k].id
                   && now.vaultItems[k].currentRevision == db.vaultItems[k].currentRevision
    ensures HasItem(now, r)
  {
    var k :| k in db.vaultItems && db.vaultItems[k].id == r.id && r.revision <= db.vaultItems[k].currentRevision;
    assert k in now.vaultItems && now.vaultItems[k].id == r.id && r.revision <= now.vaultItems[k].currentRevision;
  }

  lemma RotateRow(db: Db, now: Db, master: string, next: string, key: RowKey)
    requires VerifySentinel(master, db.sentinel) && AllDecrypt(master, db.vaultRows)
    requires RowsRewrapped(master, next, db.vaultRows, now.vaultRows) && key in db.vaultRows
    requires forall k :: VerifySentinel(k, now.sentinel) <==> k == next
    ensures SamePlainText(db, now, key) && DecryptVault(next, key, now.vaultRows[key]).Ok?
  {
    hide VerifySentinel;
    SentinelKeyUnique(db);
    hide KeyRotation.DecryptRow;
    assert KeyRotation.RowRewrapped(master, next, KeyRotation.VaultRevisions, key, db.vaultRows[key].row,
                                    now.vaultRows[key].row);
  }

  lemma RotateKeeps(db: Db, step: Step, now: Db)
    requires VaultWell(db) && step.Rotate? && Enabled(db, step)
    requires now == db.(vaultRows := step.rows, sentinel := step.sentinel)
    ensures VaultWell(now) && VaultExtends(db, now)
  {
    hide VerifySentinel, DecryptVault, SamePlainText, ItemsWell;
    SentinelKeyUnique(db);
    var master :| VerifySentinel(master, db.sentinel) && AllDecrypt(master, db.vaultRows);
    assert master == step.master;
    RotateKeepsItems(db, now);
    forall k | k in now.vaultRows
      ensures DecryptVault(step.next, k, now.vaultRows[k]).Ok? && SamePlainText(db, now, k)
    {
      RotateRow(db, now, master, step.next, k);
    }
    assert AllDecrypt(step.next, now.vaultRows);
  }

  lemma RotateKeepsItems(db: Db, now: Db)
    requires ItemsWell(db) && now.vaultItems == db.vaultItems && now.vaultRows.Keys == db.vaultRows.Keys
    ensures ItemsWell(now)
  {
    hide HasItem;
    forall r | r in now.vaultRows ensures HasItem(now, r) {
      assert HasItem(db, r);
      SameItem(db, now, r);
    }
  }

  /** Every step keeps all invariants and only adds to what is recorded. */
  lemma StepKeeps(codec: Codec, db: Db, step: Step)
    requires DbWell(db) && Enabled(db, step)
    ensures DbWell(Apply(codec, db, step)) && Extends(db, Apply(codec, db, step))
  {
    hide StoreWell, VaultWell, MetaWell, OperationsExtend, HistoryExtends, VaultExtends, CommitAt, SeenBefore,
         RejectTransfer,
         ChangeLifecycle, ChangeEnvironment, PutRow, RowsRewrapped, VerifySentinel, SealedFor, NewItemId;
    var now := Apply(codec, db, step);
    match step
    case Commit(request, meta, newId, view) =>
      CommitAtKeeps(codec, view, db, request, meta, newId);
      CommitAtRecords(codec, view, db, request, meta, newId);
      VaultUntouched(db, now);
    case Refuse(request, meta, failure) =>
      RejectTransferKeeps(db, request, meta, failure);
      RefuseRecords(db, request, meta, failure);
      VaultUntouched(db, now);
    case Lifecycle(request) =>
      LifecycleKeeps(db, request);
      LifecycleRecords(db, request);
      VaultUntouched(db, now);
    case Environments(request, newId) =>
      EnvironmentKeeps(db, request, newId);
      EnvironmentRecords(db, request, newId);
      VaultUntouched(db, now);
    case PutVault(key, itemId, row) =>
      PutOnlyVault(db, key, itemId, row);
      PutKeeps(db, key, itemId, row);
      RecordsUntouched(db, now);
      StoreUntouched(db, now);
    case ArchiveVault(key, archived) =>
      ArchiveKeeps(db, now, key, archived);
      RecordsUntouched(db, now);
      StoreUntouched(db, now);
    case Rotate(_, _, _, _) =>
      RotateKeeps(db, step, now);
      RecordsUntouched(db, now);
      StoreUntouched(db, now);
  }

  lemma PutOnlyVault(db: Db, key: Etags.ItemKey, itemId: string, row: VaultRow)
    ensures var now := PutRow(db, key, itemId, row);
            now == db.(vaultItems := now.vaultItems, vaultRows := now.vaultRows, sentinel := now.sentinel)
  {
  }

  // ----- Runs -----

  ghost predicate IsRun(codec: Codec, states: seq<Db>, steps: seq<Step>) {
    && |states| == |steps| + 1
    && forall i | 0 <= i < |steps| :: Enabled(states[i], steps[i]) && states[i + 1] == Apply(codec, states[i], steps[i])
  }

  lemma ExtendsTransitive(a: Db, b: Db, c: Db)
    requires Extends(a, b) && Extends(b, c) && VaultWell(b)
    ensures Extends(a, c)
  {
    hide OperationsExtend, HistoryExtends, VaultExtends;
    RecordsTransitive(a, b, c);
    VaultTransitive(a, b, c);
  }

  lemma RecordsTransitive(a: Db, b: Db, c: Db)
    requires OperationsExtend(a, b) && OperationsExtend(b, c) && HistoryExtends(a, b) && HistoryExtends(b, c)
    ensures OperationsExtend(a, c) && HistoryExtends(a, c)
  {
  }

  lemma VaultTransitive(a: Db, b: Db, c: Db)
    requires VaultExtends(a, b) && VaultExtends(b, c) && VaultWell(b)
    ensures VaultExtends(a, c)
  {
    hide VerifySentinel, DecryptVault, ItemsWell;
    var n :| VerifySentinel(n, b.sentinel) && AllDecrypt(n, b.vaultRows);
    forall k | k in a.vaultRows ensures SamePlainText(a, c, k) {
      assert SamePlainText(a, b, k) && SamePlainText(b, c, k);
    }
  }

  /** In every reachable state the invariants hold, and everything recorded earlier is still there. */
  lemma {:induction false} RunKeeps(codec: Codec, states: seq<Db>, steps: seq<Step>, i: nat, j: nat)
    requires IsRun(codec, states, steps) && DbWell(states[0]) && i <= j < |states|
    ensures DbWell(states[i]) && DbWell(states[j]) && Extends(states[i], states[j])
    decreases i + j
  {
    hide StoreWell, VaultWell, Extends, Enabled, Apply;
    if i < j {
      RunKeeps(codec, states, steps, i, j - 1);
      StepKeeps(codec, states[j - 1], steps[j - 1]);
      ExtendsTransitive(states[i], states[j - 1], states[j]);
    } else if i > 0 {
      RunKeeps(codec, states, steps, i - 1, i - 1);
      StepKeeps(codec, states[i - 1], steps[i - 1]);
      ExtendsSelf(states[i]);
    } else {
      ExtendsSelf(states[i]);
    }
  }

  /** Every earlier state of a run is a possible read view of a later commit. */
  lemma EarlierIsView(codec: Codec, states: seq<Db>, steps: seq<Step>, i: nat, j: nat)
    requires IsRun(codec, states, steps) && DbWell(states[0]) && i <= j < |states|
    ensures SeenBefore(states[i], states[j])
  {
    hide DbWell, IsRun, OperationsExtend, VaultExtends;
    RunKeeps(codec, states, steps, i, j);
  }

  /** A freshly initialized database is where runs begin. */
  lemma EmptyDatabase(master: string, nonce: string)
    requires |nonce| == NONCE_SIZE
    ensures DbWell(Db(map[], map[], map[], map[], map[], [], map[], map[], CreateSentinel(master, nonce)))
  {
    hide CreateSentinel, VerifySentinel;
    var db := Db(map[], map[], map[], map[], map[], [], map[], map[], CreateSentinel(master, nonce));
    SentinelIdentifiesKey(master, nonce, master);
    assert VerifySentinel(master, db.sentinel) && AllDecrypt(master, db.vaultRows);
  }
}
