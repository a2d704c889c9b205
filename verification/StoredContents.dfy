/** Stored documents stay canonical. This is the one property of the store that depends on the document
    engine, so it is stated per format and apart from the other invariants. */
module StoredContents {
  import opened Ordering
  import opened References
  import opened ConfigStore
  import opened StoreInvariants
  import opened StoreSteps
  import opened CommitViews
  import opened StoreRuns
  import opened StoreGuarantees

  /** In this format Canonicalize is idempotent and Merge returns canonical documents. */
  ghost predicate FormatLaws(codec: Codec, format: string) {
    && (forall content :: CanonicalFixed(codec, format, content))
    && (forall source, target :: MergeLaw(codec, format, source, target))
  }

  predicate CanonicalFixed(codec: Codec, format: string, content: string) {
    var document := codec.canonicalize(format, content);
    document.Some? ==> codec.canonicalize(format, document.value.content) == document
  }

  predicate MergeLaw(codec: Codec, format: string, source: string, target: string) {
    var merged := codec.merge(format, source, target);
    merged.Some? ==> codec.canonicalize(format, merged.value.content) == merged
  }

  predicate CanonicalRevision(codec: Codec, row: Revision) {
    codec.canonicalize(row.format, row.content) == Some(Document(row.content, row.references))
  }

  /** Every stored revision of this format is canonical and has its own references recorded. */
  predicate CanonicalIn(codec: Codec, db: Db, format: string) {
    forall id | id in db.revisions && db.revisions[id].format == format :: CanonicalRevision(codec, db.revisions[id])
  }

  lemma CanonicalRow(codec: Codec, request: ConfigCommit, meta: Meta)
    requires CanonicalFixed(codec, request.format, request.content) && Validate(codec, request).Valid?
    ensures CanonicalRevision(codec, NewRevision(request, meta, Validate(codec, request).document))
  {
    hide ValidResourceKey;
  }

  lemma CommitCanonical(codec: Codec, view: Db, db: Db, request: ConfigCommit, meta: Meta, newId: string,
                        format: string)
    requires StoreWell(db) && SeenBefore(view, db) && CanonicalIn(codec, db, format) && FormatLaws(codec, format)
    ensures CanonicalIn(codec, CommitAt(codec, view, db, request, meta, newId).0, format)
  {
    hide StoreWell, SeenBefore, CanonicalRevision, Validate, CommitAt;
    CommitEffect(codec, view, db, request, meta, newId);
    var (now, reply) := CommitAt(codec, view, db, request, meta, newId);
    if request.operationId !in db.operations && reply.Returned? && reply.response.outcome == Success
        && request.format == format {
      assert CanonicalFixed(codec, format, request.content);
      CanonicalRow(codec, request, meta);
    }
    NewRow(codec, request, meta);
  }

  lemma NewRow(codec: Codec, request: ConfigCommit, meta: Meta)
    ensures Validate(codec, request).Valid? ==>
              NewRevision(request, meta, Validate(codec, request).document).format
              == request.format
  {
    hide Validate;
  }

  lemma FinishedRevisions(db: Db)
    ensures forall d, c | SameTables(db, d) :: Finish(d, c).revisions == db.revisions
  {
    forall d, c | SameTables(db, d) ensures Finish(d, c).revisions == db.revisions {
      FinishTables(d, c);
    }
  }

  lemma RefusalRevisions(db: Db, request: ConfigCommit, meta: Meta, failure: Failure)
    ensures RejectTransfer(db, request, meta, failure).0.revisions == db.revisions
  {
    hide Finish, DigestOf, ConfigCompletion, Begin, ReplayReply;
    FinishedRevisions(db);
  }

  lemma LifecycleRevisions(db: Db, request: LifecycleChange)
    ensures ChangeLifecycle(db, request).0.revisions == db.revisions
  {
    hide FreshLifecycle, ValidOperationId, ValidActor, Begin, OnlyConfig, ReplayReply;
    FreshLifecycleEffect(db, request);
    OnlyConfigRevisions(db, FreshLifecycle(db, request).0, request.key);
  }

  lemma OnlyConfigRevisions(was: Db, now: Db, key: string)
    requires OnlyConfig(was, now, key)
    ensures now.revisions == was.revisions
  {
  }

  lemma EnvironmentRevisions(db: Db, request: EnvironmentChange, newId: string)
    ensures ChangeEnvironment(db, request, newId).0.revisions == db.revisions
  {
    hide FreshEnvironment, ValidOperationId, ValidActor, Begin, EnvironmentDone, ReplayReply;
    FreshEnvironmentEffect(db, request, newId);
  }

  /** The other steps write no revision. */
  lemma OtherSteps(codec: Codec, db: Db, step: Step)
    requires !step.Commit?
    ensures Apply(codec, db, step).revisions == db.revisions
  {
    hide RejectTransfer, ChangeLifecycle, ChangeEnvironment, CommitAt;
    match step
    case Refuse(request, meta, failure) => RefusalRevisions(db, request, meta, failure);
    case Lifecycle(request) => LifecycleRevisions(db, request);
    case Environments(request, newId) => EnvironmentRevisions(db, request, newId);
    case _ =>
  }

  /** Every step keeps the stored documents of a lawful format canonical. */
  lemma StepKeepsCanonical(codec: Codec, db: Db, step: Step, format: string)
    requires DbWell(db) && Enabled(db, step) && CanonicalIn(codec, db, format) && FormatLaws(codec, format)
    ensures CanonicalIn(codec, Apply(codec, db, step), format)
  {
    hide StoreWell, VaultWell, CanonicalRevision, FormatLaws, CommitAt, SeenBefore, MetaWell, RejectTransfer,
         ChangeLifecycle,
         ChangeEnvironment, PutRow;
    if step.Commit? {
      CommitCanonical(codec, step.view, db, step.request, step.meta, step.newId, format);
    } else {
      OtherSteps(codec, db, step);
    }
  }

  /** In every reachable state the stored documents of a lawful format are canonical. */
  lemma {:induction false} RunKeepsCanonical(codec: Codec, states: seq<Db>, steps: seq<Step>, i: nat, format: string)
    requires IsRun(codec, states, steps) && DbWell(states[0]) && i < |states|
    requires CanonicalIn(codec, states[0], format) && FormatLaws(codec, format)
    ensures CanonicalIn(codec, states[i], format)
  {
    hide DbWell, CanonicalIn, FormatLaws, Enabled, Apply, Extends;
    if i > 0 {
      RunKeepsCanonical(codec, states, steps, i - 1, format);
      RunKeeps(codec, states, steps, i - 1, i - 1);
      StepKeepsCanonical(codec, states[i - 1], steps[i - 1], format);
    }
  }
}
