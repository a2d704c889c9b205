/** Requests on small databases, from which the runs of examples are built. */
module SmallRuns {
  import opened Ordering
  import opened References
  import opened VaultCrypto
  import opened ConfigStore
  import opened StoreRuns

  const SOMEONE := Actor("user", "someone")
  const COMMIT := Meta("commit", "", None, None, None, false)

  /** The database as it is initialised. */
  function Initial(): Db {
    Db(map[], map[], map[], map[], map[], [], map[], map[], CreateSentinel("master", "nonce-------"))
  }

  /** A document engine that takes every text for a canonical document without references. */
  function PlainCodec(): Codec {
    Codec((format: string, content: string) => Some(Document(content, [])),
          (format: string, source: string, target: string) => None)
  }

  function CreateRequest(operationId: string, key: string): EnvironmentChange {
    EnvironmentChange(operationId, SOMEONE, "create", key, key)
  }

  function CommitRequest(operationId: string, environmentKey: string, content: string): ConfigCommit {
    ConfigCommit(operationId, SOMEONE, environmentKey, "app", "App", 0, "json", content)
  }

  /** A new environment is there, and nothing else has changed but operations and events. */
  predicate EnvironmentCreated(db: Db, now: Db, operationId: string, key: string, id: string) {
    && now.environments == db.environments[key := Environment(id, key, false)]
    && now.configs == db.configs && now.states == db.states && now.revisions == db.revisions
    && now.vaultItems == db.vaultItems && now.vaultRows == db.vaultRows && now.sentinel == db.sentinel
    && now.operations.Keys == db.operations.Keys + {operationId}
  }

  lemma CreatesEnvironment(db: Db, operationId: string, key: string, id: string)
    requires ValidOperationId(operationId) && ValidResourceKey(key) && operationId !in db.operations
    requires key !in db.environments && NewEnvironmentId(db, id)
    ensures EnvironmentCreated(db, ChangeEnvironment(db, CreateRequest(operationId, key), id).0, operationId, key, id)
  {
    hide ValidOperationId, NewEnvironmentId, EventOf;
  }

  /** The first revision of the Config in an environment is there, and nothing else has changed. */
  predicate FirstCommitted(db: Db, now: Db, request: ConfigCommit, configId: string) {
    request.environmentKey in db.environments &&
    var binding := Binding(configId, db.environments[request.environmentKey].id);
    && now.environments == db.environments
    && now.configs == (if "app" in db.configs then db.configs else db.configs["app" := Config(configId, "App", false)])
    && now.states == db.states[binding := 1]
    && now.revisions == db.revisions[RevisionId(binding, 1) := NewRevision(request, COMMIT,
                                                                           Document(request.content, []))]
    && now.vaultItems == db.vaultItems && now.vaultRows == db.vaultRows && now.sentinel == db.sentinel
    && now.operations.Keys == db.operations.Keys + {request.operationId}
  }

  lemma FirstDecision(db: Db, request: ConfigCommit, configId: string)
    requires request.configKey == "app" && request.expectedRevision == 0 && Active(db, request.environmentKey)
    requires Binding(configId, db.environments[request.environmentKey].id) !in db.states
    requires if "app" in db.configs then db.configs["app"] == Config(configId, "App", false)
             else NewConfigId(db, configId)
    ensures Decide(db, request, COMMIT, Valid(Document(request.content, [])), configId)
         == Advance(Binding(configId, db.environments[request.environmentKey].id), 1, [])
  {
    hide NewConfigId;
  }

  lemma FirstSettled(db: Db, request: ConfigCommit, configId: string)
    requires request.configKey == "app" && request.configName == "App" && request.environmentKey in db.environments
    requires "app" in db.configs ==> db.configs["app"] == Config(configId, "App", false)
    ensures var binding := Binding(configId, db.environments[request.environmentKey].id);
            var (now, reply) := Settle(db, request, COMMIT, Valid(Document(request.content, [])),
                                       Advance(binding, 1, []));
            && FirstCommitted(db, now, request, configId)
            && reply == Returned(ConfigResult(Success, 1, [], None), NoError)
  {
    hide EventOf, DigestOf, NewRevision, EventName;
  }

  /** Requests for this Config are valid in this engine. */
  lemma PlainValid(request: ConfigCommit)
    requires request.configKey == "app" && request.configName == "App" && request.format == "json"
    requires ValidResourceKey(request.environmentKey)
    ensures Validate(PlainCodec(), request) == Valid(Document(request.content, []))
  {
    hide ValidResourceKey;
    PlainTexts();
  }

  lemma FirstCommit(db: Db, operationId: string, environmentKey: string, content: string, configId: string)
    requires ValidOperationId(operationId) && operationId !in db.operations
    requires Active(db, environmentKey) && ValidResourceKey(environmentKey)
    requires Binding(configId, db.environments[environmentKey].id) !in db.states
    requires if "app" in db.configs then db.configs["app"] == Config(configId, "App", false)
             else NewConfigId(db, configId)
    ensures var request := CommitRequest(operationId, environmentKey, content);
            var (now, reply) := CommitConfig(PlainCodec(), db, request, COMMIT, configId);
            && FirstCommitted(db, now, request, configId)
            && reply == Returned(ConfigResult(Success, 1, [], None), NoError)
  {
    hide ValidOperationId, ValidResourceKey, NewConfigId, Decide, Settle, Validate, DigestOf, PlainCodec,
         FirstCommitted;
    var request := CommitRequest(operationId, environmentKey, content);
    PlainValid(request);
    FirstDecision(db, request, configId);
    FirstSettled(db, request, configId);
  }

  lemma PlainTexts()
    ensures ValidResourceKey("app") && ValidResourceKey("staging") && ValidResourceKey("production")
    ensures ValidResourceKey("team") && ValidResourceKey("tls")
    ensures ValidOperationId("operation-1") && ValidOperationId("operation-2") && ValidOperationId("operation-3")
    ensures ValidOperationId("operation-4")
  {
  }

  const STAGING_ID := "staging-----id-1"
  const PRODUCTION_ID := "production--id-2"
  const CONFIG_ID := "0123456789abcdef"

  lemma RunOfThree(codec: Codec, states: seq<Db>, steps: seq<Step>)
    requires |states| == 4 && |steps| == 3
    requires Enabled(states[0], steps[0]) && states[1] == Apply(codec, states[0], steps[0])
    requires Enabled(states[1], steps[1]) && states[2] == Apply(codec, states[1], steps[1])
    requires Enabled(states[2], steps[2]) && states[3] == Apply(codec, states[2], steps[2])
    ensures IsRun(codec, states, steps)
  {
    hide Enabled, Apply;
  }

  lemma InitialIsWell()
    ensures DbWell(Initial())
  {
    hide CreateSentinel, DbWell;
    EmptyDatabase("master", "nonce-------");
  }
}
