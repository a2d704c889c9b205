/** What one fresh Config commit does, told field by field: the reply with its warnings, the revision it
    stores, the recorded operation and the events. Nothing here refers to the functions that carry it out. */
module CommitMeaning {
  import opened Ordering
  import opened References
  import opened Encoding
  import opened ConfigStore
  import opened StoreInvariants
  import opened StoreSteps
  import opened CommitViews
  import opened StoreGuarantees
  import Etags
  import KeyRotation

  // ----- Warnings -----

  function ItemOf(r: Reference): Etags.ItemKey {
    Etags.ItemKey(r.namespaceKey, r.itemKey)
  }

  /** The item is there and not archived. */
  predicate ItemThere(db: Db, r: Reference) {
    ItemOf(r) in db.vaultItems && !db.vaultItems[ItemOf(r)].archived
  }

  /** The row of the item's current revision. */
  function RowFor(db: Db, r: Reference): KeyRotation.RowKey
    requires ItemThere(db, r)
  {
    KeyRotation.RowKey(db.vaultItems[ItemOf(r)].id, db.vaultItems[ItemOf(r)].currentRevision)
  }

  predicate FieldThere(db: Db, r: Reference)
    requires ItemThere(db, r)
  {
    && RowFor(db, r) in db.vaultRows && r.fieldKey in db.vaultRows[RowFor(db, r)].fields
    && !db.vaultRows[RowFor(db, r)].fields[r.fieldKey].archived
  }

  predicate VariantThere(db: Db, environmentId: string, r: Reference)
    requires ItemThere(db, r)
  {
    RowFor(db, r) in db.vaultRows && environmentId in db.vaultRows[RowFor(db, r)].bindings
  }

  /** What a commit's warnings look at: the reference finds its item, an unarchived field and a variant. The
      field's type and the encrypted payload are not looked at. */
  predicate Usable(db: Db, environmentId: string, r: Reference) {
    ItemThere(db, r) && FieldThere(db, r) && VariantThere(db, environmentId, r)
  }

  /** The warning names the reference and what is missing. */
  predicate Tells(db: Db, environmentId: string, r: Reference, w: Warning) {
    && w.reference == r
    && if !ItemThere(db, r) then w.code == "missing_vault_item"
       else if !FieldThere(db, r) then w.code == "missing_vault_field"
       else !VariantThere(db, environmentId, r) && w.code == "missing_vault_environment_variant"
  }

  /** The places of the references warned about: in order, one warning each, and none is left out. */
  ghost predicate WarnedAt(db: Db, environmentId: string, references: seq<Reference>, warnings: seq<Warning>,
                           at: seq<nat>) {
    && |at| == |warnings|
    && (forall i, j | 0 <= i < j < |at| :: at[i] < at[j])
    && (forall i | 0 <= i < |at| :: at[i] < |references| && Tells(db, environmentId, references[at[i]], warnings[i]))
    && (forall k | 0 <= k < |references| && !Usable(db, environmentId, references[k]) :: k in at)
  }

  /** The warnings are about exactly the references that are not usable, in their order. */
  ghost predicate WarnsExactly(db: Db, environmentId: string, references: seq<Reference>, warnings: seq<Warning>) {
    exists at :: WarnedAt(db, environmentId, references, warnings, at)
  }

  lemma WarnTells(db: Db, environmentId: string, r: Reference)
    ensures Usable(db, environmentId, r) ==> Warn(db, environmentId, r) == []
    ensures !Usable(db, environmentId, r) ==>
              |Warn(db, environmentId, r)| == 1 && Tells(db, environmentId, r, Warn(db, environmentId, r)[0])
  {
  }

  lemma {:induction false} WarningsTell(db: Db, environmentId: string, references: seq<Reference>)
    ensures WarnsExactly(db, environmentId, references, Warnings(db, environmentId, references))
  {
    if references == [] {
      assert WarnedAt(db, environmentId, [], [], []);
    } else {
      WarningsTell(db, environmentId, references[1..]);
      var rest := Warnings(db, environmentId, references[1..]);
      var at :| WarnedAt(db, environmentId, references[1..], rest, at);
      WarnTells(db, environmentId, references[0]);
      OneMore(db, environmentId, references, rest, at, Warn(db, environmentId, references[0]));
    }
  }

  /** The places moved on by one. */
  ghost function Moved(at: seq<nat>): seq<nat> {
    seq(|at|, i requires 0 <= i < |at| => at[i] + 1)
  }

  lemma MovedTells(db: Db, environmentId: string, references: seq<Reference>, rest: seq<Warning>, at: seq<nat>, i: nat)
    requires references != [] && WarnedAt(db, environmentId, references[1..], rest, at) && i < |at|
    ensures 0 < Moved(at)[i] < |references| && Tells(db, environmentId, references[Moved(at)[i]], rest[i])
  {
    hide Usable, Tells;
    assert references[1..][at[i]] == references[at[i] + 1];
  }

  lemma MovedHolds(db: Db, environmentId: string, references: seq<Reference>, rest: seq<Warning>, at: seq<nat>, k: nat)
    requires references != [] && WarnedAt(db, environmentId, references[1..], rest, at)
    requires 0 < k < |references| && !Usable(db, environmentId, references[k])
    ensures k in Moved(at)
  {
    hide Usable, Tells;
    assert references[1..][k - 1] == references[k];
    var i :| 0 <= i < |at| && at[i] == k - 1;
    assert Moved(at)[i] == k;
  }

  lemma OneMore(db: Db, environmentId: string, references: seq<Reference>, rest: seq<Warning>, at: seq<nat>,
                first: seq<Warning>)
    requires references != [] && WarnedAt(db, environmentId, references[1..], rest, at)
    requires if Usable(db, environmentId, references[0]) then first == []
             else |first| == 1 && Tells(db, environmentId, references[0], first[0])
    ensures WarnsExactly(db, environmentId, references, first + rest)
  {
    hide Usable, Tells;
    forall i | 0 <= i < |at|
      ensures 0 < Moved(at)[i] < |references| && Tells(db, environmentId, references[Moved(at)[i]], rest[i])
    {
      MovedTells(db, environmentId, references, rest, at, i);
    }
    forall k | 0 < k < |references| && !Usable(db, environmentId, references[k]) ensures k in Moved(at) {
      MovedHolds(db, environmentId, references, rest, at, k);
    }
    MovedAscends(db, environmentId, references[1..], rest, at);
    hide Moved, Warnings;
    Joined(db, environmentId, references, rest, Moved(at), first);
  }

  lemma MovedAscends(db: Db, environmentId: string, references: seq<Reference>, rest: seq<Warning>, at: seq<nat>)
    requires WarnedAt(db, environmentId, references, rest, at)
    ensures |Moved(at)| == |rest| && forall i, j | 0 <= i < j < |at| :: Moved(at)[i] < Moved(at)[j]
  {
  }

  lemma Joined(db: Db, environmentId: string, references: seq<Reference>, rest: seq<Warning>, moved: seq<nat>,
               first: seq<Warning>)
    requires references != [] && |moved| == |rest| && forall i, j | 0 <= i < j < |moved| :: moved[i] < moved[j]
    requires forall i | 0 <= i < |moved| ::
               0 < moved[i] < |references| && Tells(db, environmentId, references[moved[i]], rest[i])
    requires forall k | 0 < k < |references| && !Usable(db, environmentId, references[k]) :: k in moved
    requires if Usable(db, environmentId, references[0]) then first == []
             else |first| == 1 && Tells(db, environmentId, references[0], first[0])
    ensures WarnsExactly(db, environmentId, references, first + rest)
  {
    hide Usable, Tells;
    if first == [] {
      assert first + rest == rest;
      assert WarnedAt(db, environmentId, references, rest, moved);
    } else {
      assert first == [first[0]];
      Prefixed(db, environmentId, references, rest, moved, first[0]);
    }
  }

  lemma Prefixed(db: Db, environmentId: string, references: seq<Reference>, rest: seq<Warning>, moved: seq<nat>,
                 first: Warning)
    requires references != [] && |moved| == |rest| && forall i, j | 0 <= i < j < |moved| :: moved[i] < moved[j]
    requires forall i | 0 <= i < |moved| ::
               0 < moved[i] < |references| && Tells(db, environmentId, references[moved[i]], rest[i])
    requires forall k | 0 < k < |references| && !Usable(db, environmentId, references[k]) :: k in moved
    requires Tells(db, environmentId, references[0], first)
    ensures WarnsExactly(db, environmentId, references, [first] + rest)
  {
    hide Usable, Tells;
    var all: seq<nat>, warnings := [0] + moved, [first] + rest;
    forall i | 0 <= i < |all|
      ensures all[i] < |references| && Tells(db, environmentId, references[all[i]], warnings[i])
    {
      if i > 0 {
        assert all[i] == moved[i - 1] && warnings[i] == rest[i - 1];
      }
    }
    forall i, j | 0 <= i < j < |all| ensures all[i] < all[j] {
      assert all[j] == moved[j - 1];
      assert i > 0 ==> all[i] == moved[i - 1];
    }
    forall k | 0 <= k < |references| && !Usable(db, environmentId, references[k]) ensures k in all {
      if k == 0 {
        assert all[0] == 0;
      } else {
        var i :| 0 <= i < |moved| && moved[i] == k;
        assert all[i + 1] == k;
      }
    }
    assert WarnedAt(db, environmentId, references, warnings, all);
  }

  // ----- What is recorded and announced -----

  /** Rejected input is not a resource identity. */
  predicate Names(shown: string, key: string, outcome: Outcome) {
    shown == if outcome == ValidationFailed && !ValidResourceKey(key) then "" else key
  }

  predicate Announces(e: Event, kind: EventKind, c: Completion) {
    && e.kind == kind && e.eventType == c.eventType && e.operationId == c.id && e.actor == c.actor
    && e.action == c.action && e.outcome == c.response.outcome && e.resourceType == c.resourceType
    && Names(e.environmentKey, c.environmentKey, c.response.outcome)
    && Names(e.resourceKey, c.resourceKey, c.response.outcome)
    && e.revision == if c.response.outcome == Success then c.revision else 0
  }

  /** The operation is recorded with its response, and its events are appended: one for the audit and, when
      it is to be notified, one more. */
  predicate Told(was: Db, now: Db, c: Completion) {
    && now.operations == was.operations[c.id := Operation(c.digest, c.actor,
                                                          Completed(c.response.outcome, c.response,
                                                                    if c.response.outcome == Success then c.revision
                                                                    else 0))]
    && |now.outbox| == |was.outbox| + (if c.notify then 2 else 1) && was.outbox <= now.outbox
    && Announces(now.outbox[|was.outbox|], Audit, c)
    && (c.notify ==> Announces(now.outbox[|was.outbox| + 1], Notification, c))
  }

  lemma FinishTold(was: Db, db: Db, c: Completion)
    requires db.operations == was.operations && db.outbox == was.outbox
    ensures Told(was, Finish(db, c), c)
  {
    hide ValidResourceKey;
  }

  // ----- Who may ask -----

  const UPPER := "ABCDEFGHIJKLM" + "NOPQRSTUVWXYZ"

  lemma UpperExactly(c: char)
    ensures 'A' <= c <= 'Z' <==> c in UPPER
  {
    FirstCapitals(c);
    LastCapitals(c);
    InEither(c, "ABCDEFGHIJKLM", "NOPQRSTUVWXYZ");
    assert c <= 'M' || 'N' <= c;
  }

  lemma FirstCapitals(c: char)
    ensures 'A' <= c <= 'M' <==> c in "ABCDEFGHIJKLM"
  {
    if 'A' <= c <= 'M' {
      assert "ABCDEFGHIJKLM"[c as int - 'A' as int] == c;
    }
  }

  lemma LastCapitals(c: char)
    ensures 'N' <= c <= 'Z' <==> c in "NOPQRSTUVWXYZ"
  {
    if 'N' <= c <= 'Z' {
      assert "NOPQRSTUVWXYZ"[c as int - 'N' as int] == c;
    }
  }

  /** OperationIDs are 8 to 128 letters, digits, hyphens and underscores; actors are users or the system, by an
      identifier of up to 255 bytes. */
  lemma IdentityExactly(id: string, actor: Actor)
    ensures ValidOperationId(id) <==>
            8 <= |id| <= 128 && forall c | c in id :: c in LOWER || c in UPPER || c in DIGITS || c == '-' || c == '_'
    ensures ValidActor(actor) <==> actor.kind in {"user", "system"} && 1 <= |actor.id| <= 255
  {
    hide LOWER, UPPER, DIGITS;
    forall c ensures 'a' <= c <= 'z' <==> c in LOWER {
      LowerExactly(c);
    }
    forall c ensures 'A' <= c <= 'Z' <==> c in UPPER {
      UpperExactly(c);
    }
    forall c ensures '0' <= c <= '9' <==> c in DIGITS {
      DigitExactly(c);
    }
    assert forall i | 0 <= i < |id| :: id[i] in id;
  }

  // ----- A fresh commit -----

  /** The keys, names and documents that a commit accepts. */
  predicate Accepts(codec: Codec, request: ConfigCommit) {
    && ValidResourceKey(request.environmentKey) && ValidResourceKey(request.configKey)
    && 0 < |request.configName| <= 255
    && codec.canonicalize(request.format, request.content).Some?
  }

  function Canonical(codec: Codec, request: ConfigCommit): Document
    requires Accepts(codec, request)
  {
    codec.canonicalize(request.format, request.content).value
  }

  lemma AcceptsExactly(codec: Codec, request: ConfigCommit)
    ensures Validate(codec, request).Valid? <==> Accepts(codec, request)
    ensures Accepts(codec, request) ==> Validate(codec, request) == Valid(Canonical(codec, request))
  {
    hide ValidResourceKey;
  }

  /** The failure is there. */
  predicate FailsFor(codec: Codec, view: Db, db: Db, request: ConfigCommit, meta: Meta, failure: Failure) {
    match failure.reason
    case "target_environment_invalid" =>
      failure.field == "target_environment" && !ValidResourceKey(request.environmentKey)
    case "target_config_invalid" => failure.field == "target_config" && !ValidResourceKey(request.configKey)
    case "config_name_invalid" => failure.field == "name" && !(0 < |request.configName| <= 255)
    case "config_document_invalid" =>
      failure.field == "content" && codec.canonicalize(request.format, request.content).None?
    case "target_environment_unavailable" =>
      failure.field == "target_environment" && !Active(view, request.environmentKey)
    case "clone_target_exists" =>
      failure.field == "target_config" && meta.createOnly && request.configKey in db.configs
    case "config_archived" =>
      failure.field == "target_config" && request.configKey in db.configs && db.configs[request.configKey].archived
    case "target_config_exists" =>
      && failure.field == "expected_target_revision" && request.expectedRevision == 0
      && CurrentRevision(db, request.environmentKey, request.configKey) != 0
    case "target_revision_changed" =>
      && failure.field == "expected_target_revision" && request.expectedRevision != 0
      && CurrentRevision(db, request.environmentKey, request.configKey) != request.expectedRevision
    case _ => false
  }

  /** What is checked of a document that goes through: the environment is available in the view, and the
      warnings are those of its references in the Vault as the view shows it. */
  ghost predicate GoesThrough(codec: Codec, view: Db, request: ConfigCommit, warnings: seq<Warning>) {
    && Accepts(codec, request) && Active(view, request.environmentKey)
    && WarnsExactly(view, view.environments[request.environmentKey].id, Canonical(codec, request).references, warnings)
  }

  /** What the request leads to. */
  ghost predicate DecisionMeans(codec: Codec, view: Db, db: Db, request: ConfigCommit, meta: Meta, decision: Decision) {
    match decision
    case Reject(outcome, failure) =>
      && FailsFor(codec, view, db, request, meta, failure)
      && outcome == if failure.Class() == ErrConflict then Conflict else ValidationFailed
    case Keep(revision, warnings) =>
      revision == request.expectedRevision && GoesThrough(codec, view, request, warnings)
    case Advance(binding, revision, warnings) =>
      revision == request.expectedRevision + 1 && GoesThrough(codec, view, request, warnings)
    case Abandon => true
  }

  lemma InvalidMeans(codec: Codec, view: Db, db: Db, request: ConfigCommit, meta: Meta)
    requires Validate(codec, request).Invalid?
    ensures FailsFor(codec, view, db, request, meta, Validate(codec, request).failure)
    ensures Validate(codec, request).failure.Class() == ErrValidation
  {
    hide ValidResourceKey, CurrentRevision, Active;
  }

  /** Only the Vault matters for warnings. */
  lemma SeenWarnings(view: Db, db: Db, environmentId: string, references: seq<Reference>)
    ensures WarnsExactly(view, environmentId, references, Warnings(Seen(view, db), environmentId, references))
  {
    hide Warnings, WarnsExactly;
    SameWarnings(view, Seen(view, db), environmentId, references);
    WarningsTell(view, environmentId, references);
  }

  lemma ChangedMeans(codec: Codec, view: Db, db: Db, request: ConfigCommit, meta: Meta, binding: Binding)
    requires SeenBefore(view, db) && Active(view, request.environmentKey)
    requires binding.environmentId == view.environments[request.environmentKey].id
    requires request.configKey in db.configs ==> binding.configId == db.configs[request.configKey].id
    requires request.configKey !in db.configs ==> request.expectedRevision == 0 && binding !in db.states
    requires request.expectedRevision != if binding in db.states then db.states[binding] else 0
    ensures FailsFor(codec, view, db, request, meta,
                     Failure("expected_target_revision", if request.expectedRevision == 0 then "target_config_exists"
                             else "target_revision_changed"))
  {
    hide ValidResourceKey;
  }

  lemma CompareMeans(codec: Codec, view: Db, db: Db, request: ConfigCommit, meta: Meta, binding: Binding)
    requires SeenBefore(view, db) && Accepts(codec, request) && Active(view, request.environmentKey)
    requires binding.environmentId == view.environments[request.environmentKey].id
    requires request.configKey in db.configs ==> binding.configId == db.configs[request.configKey].id
    requires request.configKey !in db.configs ==> request.expectedRevision == 0 && binding !in db.states
    ensures DecisionMeans(codec, view, db, request, meta,
                          Compare(Seen(view, db), request, Canonical(codec, request), binding))
  {
    hide Warnings, WarnsExactly, Accepts, ValidResourceKey, SeenBefore, FailsFor;
    SeenWarnings(view, db, binding.environmentId, Canonical(codec, request).references);
    if request.expectedRevision != if binding in db.states then db.states[binding] else 0 {
      ChangedMeans(codec, view, db, request, meta, binding);
    }
  }

  lemma RefusalsMean(codec: Codec, view: Db, db: Db, request: ConfigCommit, meta: Meta)
    ensures !Active(view, request.environmentKey) ==>
              FailsFor(codec, view, db, request, meta, Failure("target_environment", "target_environment_unavailable"))
    ensures request.configKey !in db.configs && request.expectedRevision != 0 ==>
              FailsFor(codec, view, db, request, meta, Failure("expected_target_revision", "target_revision_changed"))
    ensures request.configKey in db.configs && meta.createOnly ==>
              FailsFor(codec, view, db, request, meta, Failure("target_config", "clone_target_exists"))
    ensures request.configKey in db.configs && db.configs[request.configKey].archived ==>
              FailsFor(codec, view, db, request, meta, Failure("target_config", "config_archived"))
  {
    hide ValidResourceKey, Active;
  }

  lemma FreshDecision(codec: Codec, view: Db, db: Db, request: ConfigCommit, meta: Meta, newId: string)
    requires StoreWell(db) && SeenBefore(view, db)
    ensures DecisionMeans(codec, view, db, request, meta,
                          Decide(Seen(view, db), request, meta, Validate(codec, request), newId))
  {
    hide StoreWell, Validate, Compare, Accepts, SeenBefore, GoesThrough, NewConfigId, FailsFor;
    RefusalsMean(codec, view, db, request, meta);
    AcceptsExactly(codec, request);
    SeenConfigs(view, db, request.environmentKey, newId);
    if Validate(codec, request).Invalid? {
      InvalidMeans(codec, view, db, request, meta);
    } else if Active(view, request.environmentKey) {
      var environmentId := view.environments[request.environmentKey].id;
      if request.configKey in db.configs {
        CompareMeans(codec, view, db, request, meta, Binding(db.configs[request.configKey].id, environmentId));
      } else if request.expectedRevision == 0 && NewConfigId(db, newId) {
        UnusedBinding(db, newId, environmentId);
        CompareMeans(codec, view, db, request, meta, Binding(newId, environmentId));
      }
    }
  }

  lemma UnusedBinding(db: Db, newId: string, environmentId: string)
    requires StoreWell(db) && NewConfigId(db, newId)
    ensures Binding(newId, environmentId) !in db.states
  {
    hide StoreWell, Contiguous, BindingsWell;
    Histories(db);
    NewBinding(db, newId, environmentId);
  }

  /** The event each outcome is announced as. */
  function EventNamed(meta: Meta, response: Response): string
    requires response.ConfigResult?
  {
    match response.outcome
    case Success =>
      if meta.successEvent != "" then meta.successEvent
      else if response.revision == 1 then "config.created" else "config.updated"
    case NoChange => "config." + meta.action + "." + "no_change"
    case Conflict => "config." + meta.action + "." + "conflict"
    case ValidationFailed => "config." + meta.action + "." + "validation_failed"
  }

  /** What is recorded of a commit. */
  function CommitRecord(request: ConfigCommit, meta: Meta, response: Response): Completion
    requires response.ConfigResult?
  {
    Completion(request.operationId,
               if meta.requestDigest.Some? then meta.requestDigest.value
               else CommitDigest(request, meta.action, meta.source, meta.createOnly),
               request.actor, response, response.revision, EventNamed(meta, response), "config." + meta.action,
               request.environmentKey, "config", request.configKey, response.outcome == Success)
  }

  /** What the target has become in the meantime, as opposed to what was asked. */
  predicate ConflictReason(reason: string) {
    reason == "clone_target_exists" || reason == "target_config_exists" || reason == "target_revision_changed"
  }

  /** What a fresh commit answers: the next revision, or the current one when nothing changes, with the exact
      warnings, or a failure that is there; and the answer is on record and announced. */
  ghost predicate Answers(codec: Codec, view: Db, was: Db, now: Db, request: ConfigCommit, meta: Meta, reply: Reply) {
    if reply.Failed? then now == was && reply.problem == DatabaseError
    else
      var response := reply.response;
      && response.ConfigResult? && Told(was, now, CommitRecord(request, meta, response))
      && match response.outcome
         case Success =>
           && response.failure.None? && response.revision == request.expectedRevision + 1 && reply.error == NoError
           && GoesThrough(codec, view, request, response.warnings)
         case NoChange =>
           && response.failure.None? && response.revision == request.expectedRevision && reply.error == NoError
           && GoesThrough(codec, view, request, response.warnings)
         case _ =>
           && response.failure.Some? && response.revision == 0 && response.warnings == []
           && FailsFor(codec, view, was, request, meta, response.failure.value)
           && (response.outcome == Conflict <==> ConflictReason(response.failure.value.reason))
           && reply.error == if response.outcome == Conflict then ErrConflict else ErrValidation
  }

  lemma SettleAnswers(codec: Codec, view: Db, db: Db, request: ConfigCommit, meta: Meta, decision: Decision)
    requires DecisionMeans(codec, view, db, request, meta, decision)
    ensures decision.Advance? ==> Validate(codec, request).Valid?
    ensures var (now, reply) := Settle(db, request, meta, Validate(codec, request), decision);
            Answers(codec, view, db, now, request, meta, reply)
  {
    hide Validate, GoesThrough, Finish, Told, WriteRevision, FailsFor;
    AcceptsExactly(codec, request);
    if decision.Advance? {
      assert Accepts(codec, request) by {
        Gone(codec, view, request, decision.warnings);
      }
      var written := WriteRevision(db, request, meta, Validate(codec, request).document, decision.binding,
                                   decision.revision);
      forall c ensures Told(db, Finish(written, c), c) {
        WrittenRecords(db, request, meta, Validate(codec, request).document, decision.binding, decision.revision);
        FinishTold(db, written, c);
      }
    } else {
      forall c ensures Told(db, Finish(db, c), c) {
        FinishTold(db, db, c);
      }
    }
  }

  lemma Gone(codec: Codec, view: Db, request: ConfigCommit, warnings: seq<Warning>)
    requires GoesThrough(codec, view, request, warnings)
    ensures Accepts(codec, request)
  {
    hide Accepts, Active, WarnsExactly;
  }

  lemma WrittenRecords(db: Db, request: ConfigCommit, meta: Meta, document: Document, binding: Binding, revision: nat)
    ensures WriteRevision(db, request, meta, document, binding, revision).operations == db.operations
    ensures WriteRevision(db, request, meta, document, binding, revision).outbox == db.outbox
  {
  }

  /** A fresh commit, whatever moment it reads at, answers like this and stores one revision on success and
      nothing else otherwise. */
  lemma CommitMeans(codec: Codec, view: Db, db: Db, request: ConfigCommit, meta: Meta, newId: string)
    requires StoreWell(db) && SeenBefore(view, db) && request.operationId !in db.operations
    requires ValidOperationId(request.operationId) && ValidActor(request.actor)
    ensures var (now, reply) := CommitAt(codec, view, db, request, meta, newId);
            && Answers(codec, view, db, now, request, meta, reply)
            && if reply.Returned? && reply.response.outcome == Success
               then OneRevisionAdded(codec, db, now, request, meta) else TablesUntouched(db, now)
  {
    hide StoreWell, SeenBefore, Validate, Decide, Settle, Answers, DecisionMeans, OneRevisionAdded, TablesUntouched,
         ValidOperationId, DigestOf;
    var decision := Decide(Seen(view, db), request, meta, Validate(codec, request), newId);
    FreshDecision(codec, view, db, request, meta, newId);
    SettleAnswers(codec, view, db, request, meta, decision);
    CommitEffect(codec, view, db, request, meta, newId);
  }

  /** A fresh refusal of a transfer answers, records and announces its failure and changes nothing else. */
  lemma RefusalMeans(db: Db, request: ConfigCommit, meta: Meta, failure: Failure)
    requires request.operationId !in db.operations
    ensures var (now, reply) := RejectTransfer(db, request, meta, failure);
            var response := ConfigResult(ValidationFailed, 0, [], Some(failure));
            && reply == Returned(response, if ConflictReason(failure.reason) then ErrConflict else ErrValidation)
            && Told(db, now, CommitRecord(request, meta, response)) && TablesUntouched(db, now)
  {
    hide Told, Finish;
    var response := ConfigResult(ValidationFailed, 0, [], Some(failure));
    FinishTold(db, db, CommitRecord(request, meta, response));
    FinishTables(db, CommitRecord(request, meta, response));
  }

  // ----- A commit with nothing in between -----

  /** The same for one that reads what it changes. */
  ghost predicate CommitAnswers(codec: Codec, was: Db, now: Db, request: ConfigCommit, meta: Meta, reply: Reply) {
    && StoreWell(was) && request.operationId !in was.operations
    && ValidOperationId(request.operationId) && ValidActor(request.actor)
    ==> && Answers(codec, was, was, now, request, meta, reply)
        && if reply.Returned? && reply.response.outcome == Success
           then OneRevisionAdded(codec, was, now, request, meta) else TablesUntouched(was, now)
  }

  lemma PromptMeans(codec: Codec, db: Db, request: ConfigCommit, meta: Meta, newId: string)
    ensures var (now, reply) := CommitConfig(codec, db, request, meta, newId);
            CommitAnswers(codec, db, now, request, meta, reply)
  {
    hide StoreWell, SeenBefore, ValidOperationId, ValidActor, CommitAt, CommitConfig, Answers, OneRevisionAdded,
         TablesUntouched;
    PromptCommit(codec, db, request, meta, newId);
    if StoreWell(db) && request.operationId !in db.operations && ValidOperationId(request.operationId)
       && ValidActor(request.actor) {
      CommitMeans(codec, db, db, request, meta, newId);
    }
  }

  /** The document is already the current one. */
  predicate Unchanged(codec: Codec, db: Db, request: ConfigCommit)
    requires Accepts(codec, request)
  {
    var current := CurrentDocument(db, request.environmentKey, request.configKey);
    && current.Some? && current.value.format == request.format
    && current.value.content == Canonical(codec, request).content
  }

  /** The revision that is current afterwards, and what it holds. */
  predicate Puts(codec: Codec, now: Db, request: ConfigCommit, meta: Meta)
    requires Accepts(codec, request)
  {
    && CurrentRevision(now, request.environmentKey, request.configKey) == request.expectedRevision + 1
    && CurrentDocument(now, request.environmentKey, request.configKey)
       == Some(Revision(request.format, Canonical(codec, request).content, Canonical(codec, request).references,
                        request.operationId, request.actor, meta.source))
  }

  lemma AddedIsCurrent(codec: Codec, was: Db, now: Db, request: ConfigCommit, meta: Meta)
    requires OneRevisionAdded(codec, was, now, request, meta)
    ensures Accepts(codec, request) && Puts(codec, now, request, meta)
  {
    hide Validate, Accepts;
    AcceptsExactly(codec, request);
  }

  /** The expected revision is current, and the target may be there. */
  predicate Expected(db: Db, request: ConfigCommit, meta: Meta) {
    && request.expectedRevision == CurrentRevision(db, request.environmentKey, request.configKey)
    && !(meta.createOnly && request.configKey in db.configs)
  }

  lemma NeverOvertaken(codec: Codec, db: Db, request: ConfigCommit, meta: Meta)
    requires StoreWell(db)
    ensures !Overtaken(codec, db, db, request, meta)
  {
    hide StoreWell, Contiguous, BindingsWell, Validate;
    Histories(db);
    if Stale(db, db, request) {
      KnownCurrent(db, Binding(db.configs[request.configKey].id, db.environments[request.environmentKey].id));
    }
  }

  lemma TruthfulFailure(codec: Codec, view: Db, db: Db, request: ConfigCommit, meta: Meta, failure: Failure)
    requires Accepts(codec, request) && Active(view, request.environmentKey)
    requires request.configKey in db.configs ==> !db.configs[request.configKey].archived
    requires FailsFor(codec, view, db, request, meta, failure)
    ensures ConflictReason(failure.reason)
  {
    hide ValidResourceKey, CurrentRevision;
  }

  lemma Committables(codec: Codec, db: Db, request: ConfigCommit, meta: Meta)
    requires Accepts(codec, request) && Active(db, request.environmentKey)
    requires request.configKey in db.configs ==> !db.configs[request.configKey].archived
    ensures CommittableAt(codec, db, db, request, meta) <==> Expected(db, request, meta)
    ensures Repeats(codec, db, request) <==> Unchanged(codec, db, request)
  {
    hide Validate, Accepts, CurrentRevision, CurrentDocument, Active;
    AcceptsExactly(codec, request);
  }

  /** An acceptable commit into an active environment conflicts exactly when what it expects is not so; otherwise
      it finds nothing to change exactly when its document is already the current one, and else it succeeds, and
      its document is the current one. */
  lemma CommitSettles(codec: Codec, db: Db, request: ConfigCommit, meta: Meta, newId: string)
    requires StoreWell(db) && request.operationId !in db.operations && NewConfigId(db, newId)
    requires ValidOperationId(request.operationId) && ValidActor(request.actor)
    requires request.expectedRevision + 1 < UINT64_LIMIT
    requires Accepts(codec, request) && Active(db, request.environmentKey)
    requires request.configKey in db.configs ==> !db.configs[request.configKey].archived
    ensures var (now, reply) := CommitAt(codec, db, db, request, meta, newId);
            && Answers(codec, db, db, now, request, meta, reply) && reply.Returned?
            && reply.response.outcome == (if !Expected(db, request, meta) then Conflict
                                          else if Unchanged(codec, db, request) then NoChange else Success)
            && if reply.response.outcome == Success
               then OneRevisionAdded(codec, db, now, request, meta) && Puts(codec, now, request, meta)
               else TablesUntouched(db, now)
  {
    hide StoreWell, SeenBefore, Accepts, Active, CommitAt, CommitConfig, OneRevisionAdded, TablesUntouched, Puts,
         Overtaken, CommittableAt, Repeats, Unchanged, Expected, ValidOperationId, ValidActor, NewConfigId, FailsFor,
         Told, GoesThrough;
    PromptCommit(codec, db, request, meta, newId);
    NeverOvertaken(codec, db, request, meta);
    CommitsExactly(codec, db, db, request, meta, newId);
    CommitMeans(codec, db, db, request, meta, newId);
    Committables(codec, db, request, meta);
    var (now, reply) := CommitAt(codec, db, db, request, meta, newId);
    if reply.response.outcome == Success {
      AddedIsCurrent(codec, db, now, request, meta);
    } else if !Expected(db, request, meta) {
      TruthfulFailure(codec, db, db, request, meta, reply.response.failure.value);
    }
  }
}
