/** What an older read view does to a commit, in runs that start from an empty database. */
module ViewRuns {
  import opened Ordering
  import opened References
  import opened VaultCrypto
  import opened ConfigStore
  import opened StoreInvariants
  import opened CommitViews
  import opened StoreRuns
  import opened StoreGuarantees
  import opened SmallRuns

  // ----- Overtaken -----

  function FirstRequest(): ConfigCommit {
    CommitRequest("operation-2", "staging", "1\n")
  }

  function SecondRequest(): ConfigCommit {
    CommitRequest("operation-3", "staging", "2\n")
  }

  const OTHER_ID := "fedcba9876543210"

  /** Two commits begin in one environment, at the given view; one waits for the other. */
  function RaceSteps(view: Db): seq<Step> {
    [Environments(CreateRequest("operation-1", "staging"), STAGING_ID),
     Commit(FirstRequest(), COMMIT, CONFIG_ID, view), Commit(SecondRequest(), COMMIT, OTHER_ID, view)]
  }

  /** Only the environment is there. */
  predicate OneCreated(db: Db) {
    && db.environments == map["staging" := Environment(STAGING_ID, "staging", false)]
    && db.configs == map[] && db.states == map[] && db.revisions == map[]
    && db.operations.Keys == {"operation-1"}
  }

  lemma CreatesOne(d0: Db, d1: Db)
    requires d0 == Initial()
    requires d1 == ChangeEnvironment(d0, CreateRequest("operation-1", "staging"), STAGING_ID).0
    ensures OneCreated(d1)
  {
    hide ValidOperationId, ValidResourceKey, ChangeEnvironment, CreateSentinel;
    PlainTexts();
    CreatesEnvironment(d0, "operation-1", "staging", STAGING_ID);
  }

  lemma FirstWins(d1: Db, d2: Db)
    requires OneCreated(d1)
    requires d2 == CommitConfig(PlainCodec(), d1, FirstRequest(), COMMIT, CONFIG_ID).0
    ensures SeenBefore(d1, d2) && Overtaken(PlainCodec(), d1, d2, SecondRequest(), COMMIT)
    ensures "operation-3" !in d2.operations
  {
    hide ValidOperationId, ValidResourceKey, CommitConfig, Validate, NewRevision, PlainCodec;
    PlainTexts();
    FirstCommit(d1, "operation-2", "staging", "1\n", CONFIG_ID);
    PlainValid(SecondRequest());
  }

  lemma RaceLost(d1: Db, d2: Db)
    requires StoreWell(d1) && StoreWell(d2) && HistoryExtends(d1, d2) && OneCreated(d1)
    requires d2 == CommitConfig(PlainCodec(), d1, FirstRequest(), COMMIT, CONFIG_ID).0
    ensures CommitAt(PlainCodec(), d1, d2, SecondRequest(), COMMIT, OTHER_ID) == (d2, Failed(DatabaseError))
    ensures var prompt := CommitConfig(PlainCodec(), d2, SecondRequest(), COMMIT, OTHER_ID).1;
            prompt.Returned? && prompt.response.outcome == Conflict
  {
    hide CommitConfig, CommitAt, Overtaken, StoreWell, HistoryExtends, SeenBefore, ValidOperationId, PlainCodec,
         NewConfigId, CurrentRevision;
    PlainTexts();
    FirstWins(d1, d2);
    AfterFirst(d1, d2);
    LateCommit(PlainCodec(), d1, d2, SecondRequest(), COMMIT, OTHER_ID);
    OvertakenConflicts(PlainCodec(), d1, d2, SecondRequest(), COMMIT, OTHER_ID);
  }

  lemma AfterFirst(d1: Db, d2: Db)
    requires OneCreated(d1)
    requires d2 == CommitConfig(PlainCodec(), d1, FirstRequest(), COMMIT, CONFIG_ID).0
    ensures NewConfigId(d2, OTHER_ID) && Active(d2, "staging") && CurrentRevision(d1, "staging", "app") == 0
  {
    hide ValidOperationId, ValidResourceKey, CommitConfig, NewRevision, PlainCodec;
    PlainTexts();
    FirstCommit(d1, "operation-2", "staging", "1\n", CONFIG_ID);
  }

  /** The commit that waited fails with a read error, without a trace, although it would have conflicted. */
  lemma OvertakenRun() returns (states: seq<Db>)
    ensures |states| == 4 && states[0] == Initial() && IsRun(PlainCodec(), states, RaceSteps(states[1]))
    ensures Overtaken(PlainCodec(), states[1], states[2], SecondRequest(), COMMIT)
    ensures ReplyTo(PlainCodec(), states[2], RaceSteps(states[1])[2]) == Some(Failed(DatabaseError))
    ensures states[3] == states[2]
    ensures var prompt := CommitConfig(PlainCodec(), states[2], SecondRequest(), COMMIT, OTHER_ID).1;
            prompt.Returned? && prompt.response.outcome == Conflict
  {
    hide IsRun, ChangeEnvironment, CommitConfig, CommitAt, SeenBefore, CreateSentinel, OneCreated, Initial, DbWell,
         StoreWell,
         VaultWell, Overtaken, FirstRequest, SecondRequest, PlainCodec, OperationsExtend, HistoryExtends, VaultExtends;
    var codec := PlainCodec();
    var d0 := Initial();
    var d1 := ChangeEnvironment(d0, CreateRequest("operation-1", "staging"), STAGING_ID).0;
    var d2 := CommitConfig(codec, d1, FirstRequest(), COMMIT, CONFIG_ID).0;
    var steps := RaceSteps(d1);
    CreatesOne(d0, d1);
    FirstWins(d1, d2);
    PromptCommit(codec, d1, FirstRequest(), COMMIT, CONFIG_ID);
    InitialIsWell();
    StepKeeps(codec, d0, steps[0]);
    StepKeeps(codec, d1, steps[1]);
    assert StoreWell(d1) && StoreWell(d2) && HistoryExtends(d1, d2) by {
      DbParts(d1, d2);
    }
    RaceLost(d1, d2);
    states := [d0, d1, d2, d2];
    RunOfThree(codec, states, steps);
  }

  lemma DbParts(was: Db, now: Db)
    requires DbWell(was) && DbWell(now) && Extends(was, now)
    ensures StoreWell(was) && StoreWell(now) && HistoryExtends(was, now)
  {
    hide StoreWell, VaultWell, OperationsExtend, HistoryExtends, VaultExtends;
  }

  // ----- An environment archived in between -----

  function ArchiveRequest(): EnvironmentChange {
    EnvironmentChange("operation-2", SOMEONE, "archive", "staging", "")
  }

  /** A commit begins, its environment is archived, and the commit goes on. */
  function ArchiveSteps(view: Db): seq<Step> {
    [Environments(CreateRequest("operation-1", "staging"), STAGING_ID), Environments(ArchiveRequest(), OTHER_ID),
     Commit(SecondRequest(), COMMIT, CONFIG_ID, view)]
  }

  /** The environment has been archived, and nothing else has changed but operations and events. */
  predicate Archived(db: Db, now: Db) {
    && "staging" in db.environments
    && now.environments == db.environments["staging" := db.environments["staging"].(archived := true)]
    && now.configs == db.configs && now.states == db.states && now.revisions == db.revisions
    && now.vaultItems == db.vaultItems && now.vaultRows == db.vaultRows && now.sentinel == db.sentinel
    && now.operations.Keys == db.operations.Keys + {"operation-2"}
  }

  lemma Archives(d1: Db, d2: Db)
    requires OneCreated(d1) && d2 == ChangeEnvironment(d1, ArchiveRequest(), OTHER_ID).0
    ensures Archived(d1, d2)
  {
    hide ValidOperationId, ValidResourceKey, EventOf;
    PlainTexts();
  }

  /** The view shows what there was before. */
  lemma SeenUnarchived(d1: Db, d2: Db)
    requires OneCreated(d1) && Archived(d1, d2)
    ensures SeenBefore(d1, d2) && AsSeen(d1, d2, "staging").environments == d1.environments
    ensures var seen := AsSeen(d1, d2, "staging");
            seen.configs == map[] && seen.states == map[] && seen.operations == d2.operations
  {
  }

  const UNAVAILABLE := Failure("target_environment", "target_environment_unavailable")

  lemma CommitsLate(d1: Db, d2: Db)
    requires OneCreated(d1) && Archived(d1, d2) && StoreWell(d2)
    ensures var (d3, reply) := CommitAt(PlainCodec(), d1, d2, SecondRequest(), COMMIT, CONFIG_ID);
            && reply == Returned(ConfigResult(Success, 1, [], None), NoError)
            && d3.environments == d2.environments
            && CurrentDocument(d3, "staging", "app").Some?
            && CurrentDocument(d3, "staging", "app").value.content == "2\n"
  {
    hide StoreWell, SeenBefore, AsSeen, CommitAt, CommitConfig, ValidOperationId, ValidResourceKey, PlainCodec,
         NewRevision, Validate;
    PlainTexts();
    SeenUnarchived(d1, d2);
    var seen := AsSeen(d1, d2, "staging");
    LateCommit(PlainCodec(), d1, d2, SecondRequest(), COMMIT, CONFIG_ID);
    FirstCommit(seen, "operation-3", "staging", "2\n", CONFIG_ID);
    NewContent(SecondRequest());
  }

  lemma NewContent(request: ConfigCommit)
    ensures NewRevision(request, COMMIT, Document(request.content, [])).content == request.content
  {
  }

  lemma RefusedPrompt(d2: Db)
    requires "staging" in d2.environments && d2.environments["staging"].archived && "operation-3" !in d2.operations
    ensures CommitConfig(PlainCodec(), d2, SecondRequest(), COMMIT, CONFIG_ID).1
         == Returned(ConfigResult(ValidationFailed, 0, [], Some(UNAVAILABLE)), ErrValidation)
  {
    hide ValidOperationId, ValidResourceKey, PlainCodec, Validate, Finish, DigestOf, ConfigCompletion;
    PlainTexts();
    PlainValid(SecondRequest());
  }

  lemma ArchivedWell(d0: Db, d1: Db, d2: Db)
    requires DbWell(d0) && d1 == ChangeEnvironment(d0, CreateRequest("operation-1", "staging"), STAGING_ID).0
    requires d2 == ChangeEnvironment(d1, ArchiveRequest(), OTHER_ID).0
    ensures StoreWell(d2)
  {
    hide ChangeEnvironment, DbWell, StoreWell, VaultWell, OperationsExtend, HistoryExtends, VaultExtends;
    StepKeeps(PlainCodec(), d0, Environments(CreateRequest("operation-1", "staging"), STAGING_ID));
    StepKeeps(PlainCodec(), d1, Environments(ArchiveRequest(), OTHER_ID));
    DbParts(d1, d2);
  }

  /** A commit succeeds in an environment that was archived after its view was opened, although it would have
      been refused. */
  lemma ArchivedRun() returns (states: seq<Db>)
    ensures |states| == 4 && states[0] == Initial() && IsRun(PlainCodec(), states, ArchiveSteps(states[1]))
    ensures Active(states[1], "staging") && !Active(states[2], "staging") && !Active(states[3], "staging")
    ensures CurrentDocument(states[2], "staging", "app").None?
    ensures CurrentDocument(states[3], "staging", "app").Some?
    ensures ReplyTo(PlainCodec(), states[2], ArchiveSteps(states[1])[2])
         == Some(Returned(ConfigResult(Success, 1, [], None), NoError))
    ensures CommitConfig(PlainCodec(), states[2], SecondRequest(), COMMIT, CONFIG_ID).1
         == Returned(ConfigResult(ValidationFailed, 0, [], Some(UNAVAILABLE)), ErrValidation)
  {
    hide IsRun, ChangeEnvironment, CommitConfig, CommitAt, SeenBefore, CreateSentinel, Initial, DbWell, StoreWell,
         VaultWell,
         SecondRequest, PlainCodec, OperationsExtend, HistoryExtends, VaultExtends;
    var codec := PlainCodec();
    var d0 := Initial();
    var d1 := ChangeEnvironment(d0, CreateRequest("operation-1", "staging"), STAGING_ID).0;
    var d2 := ChangeEnvironment(d1, ArchiveRequest(), OTHER_ID).0;
    var d3 := CommitAt(codec, d1, d2, SecondRequest(), COMMIT, CONFIG_ID).0;
    CreatesOne(d0, d1);
    Archives(d1, d2);
    SeenUnarchived(d1, d2);
    InitialIsWell();
    ArchivedWell(d0, d1, d2);
    CommitsLate(d1, d2);
    RefusedPrompt(d2);
    states := [d0, d1, d2, d3];
    RunOfThree(codec, states, ArchiveSteps(d1));
  }
}
