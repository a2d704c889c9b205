/** What ETags and warnings tell, and what they do not. An ETag does not name its environment, and a commit
    that gives no warning can still be unreadable. Both are shown in runs that start from an empty database. */
module ReadLimits {
  import opened Ordering
  import opened References
  import opened Encoding
  import opened VaultCrypto
  import opened ConfigStore
  import opened StoreInvariants
  import opened CommitViews
  import opened StoreRuns
  import opened SmallRuns
  import opened Etags
  import opened ConditionalRead
  import opened CommitMeaning
  import KeyRotation

  // ----- Warnings -----

  /** A commit warns about exactly the references that are not usable at that moment. */
  lemma {:induction false} WarningsExactly(db: Db, environmentId: string, references: seq<Reference>)
    requires ItemsWell(db)
    ensures forall r :: (exists w :: w in Warnings(db, environmentId, references) && w.reference == r)
                        <==> r in references && !Usable(db, environmentId, r)
  {
    hide HasItem;
    if references != [] {
      var first, rest := references[0], references[1..];
      WarningsExactly(db, environmentId, rest);
      WarnExactly(db, environmentId, first);
      hide Warn, Usable;
      forall r ensures (exists w :: w in Warnings(db, environmentId, references) && w.reference == r)
                       <==> r in references && !Usable(db, environmentId, r)
      {
        WarningsStep(db, environmentId, references, r);
      }
    }
  }

  lemma WarnExactly(db: Db, environmentId: string, r: Reference)
    requires ItemsWell(db)
    ensures Warn(db, environmentId, r) == [] <==> Usable(db, environmentId, r)
    ensures forall w | w in Warn(db, environmentId, r) :: w.reference == r
    ensures |Warn(db, environmentId, r)| <= 1
  {
    hide HasItem;
  }

  lemma WarningsStep(db: Db, environmentId: string, references: seq<Reference>, r: Reference)
    requires references != []
    requires Warn(db, environmentId, references[0]) == [] <==> Usable(db, environmentId, references[0])
    requires forall w | w in Warn(db, environmentId, references[0]) :: w.reference == references[0]
    requires (exists w :: w in Warnings(db, environmentId, references[1..]) && w.reference == r)
             <==> r in references[1..] && !Usable(db, environmentId, r)
    ensures (exists w :: w in Warnings(db, environmentId, references) && w.reference == r)
            <==> r in references && !Usable(db, environmentId, r)
  {
    hide Warn, Usable;
    var first, rest := Warn(db, environmentId, references[0]), Warnings(db, environmentId, references[1..]);
    assert Warnings(db, environmentId, references) == first + rest;
    if r == references[0] && first != [] {
      assert first[0] in first + rest && first[0].reference == r;
    }
    if exists w :: w in rest && w.reference == r {
      var w :| w in rest && w.reference == r;
      assert w in first + rest;
    }
  }

  /** What warnings leave out: the field holds text, and the payload has a text of it that is not too long. */
  predicate HoldsText(reader: Reader, master: string, db: Db, environmentId: string, r: Reference)
    requires Usable(db, environmentId, r)
  {
    var m := FindMetadata(db, environmentId, KeyOf(r)).value;
    var fieldType := db.vaultRows[CurrentRow(db.vaultItems[KeyOf(r)])].fields[r.fieldKey].fieldType;
    && (fieldType == "text" || fieldType == "secret")
    && var payload := ReadPayload(reader, master, db, m);
       && payload.Some? && KeyRotation.Hex(m.variantId) in payload.value
           && r.fieldKey in payload.value[KeyRotation.Hex(m.variantId)]
       && var value := payload.value[KeyRotation.Hex(m.variantId)][r.fieldKey];
          value.Some? && |value.value| <= MAX_TEXT_BYTES
  }

  /** A reference has a value exactly when no warning would be given about it and its field holds a text. */
  lemma WarningsAndValues(reader: Reader, master: string, db: Db, environmentId: string, r: Reference)
    requires ItemsWell(db)
    ensures Warn(db, environmentId, r) == [] <==> Usable(db, environmentId, r)
    ensures ValueOf(reader, master, db, environmentId, r).Some? <==>
            Warn(db, environmentId, r) == [] && HoldsText(reader, master, db, environmentId, r)
  {
    hide ReadPayload, KeyRotation.Hex, ItemsWell;
    WarnExactly(db, environmentId, r);
  }

  /** A warning always tells the truth: the reference has no value, whoever reads. */
  lemma WarnedIsUnreadable(reader: Reader, master: string, db: Db, environmentId: string, references: seq<Reference>,
                           w: Warning)
    requires ItemsWell(db) && w in Warnings(db, environmentId, references)
    ensures w.reference in references && ValueOf(reader, master, db, environmentId, w.reference).None?
  {
    hide Warnings, Warn, Usable, ItemsWell, ValueOf, HoldsText;
    WarningsExactly(db, environmentId, references);
    assert exists v :: v in Warnings(db, environmentId, references) && v.reference == w.reference;
    WarningsAndValues(reader, master, db, environmentId, w.reference);
  }

  // ----- Two environments, one ETag -----

  /** One Config, committed once in each of two environments; each commit reads at the given view. */
  function TwoEnvironments(first: Db, second: Db): seq<Step> {
    [Environments(CreateRequest("operation-1", "staging"), STAGING_ID),
     Environments(CreateRequest("operation-2", "production"), PRODUCTION_ID),
     Commit(CommitRequest("operation-3", "staging", "1\n"), COMMIT, CONFIG_ID, first),
     Commit(CommitRequest("operation-4", "production", "2\n"), COMMIT, CONFIG_ID, second)]
  }

  predicate Holding(db: Db, environmentKey: string, environmentId: string, content: string) {
    && environmentKey in db.environments && db.environments[environmentKey]
        == Environment(environmentId, environmentKey, false)
    && "app" in db.configs && db.configs["app"] == Config(CONFIG_ID, "App", false)
    && var binding := Binding(CONFIG_ID, environmentId);
       && binding in db.states && db.states[binding] == 1 && RevisionId(binding, 1) in db.revisions
       && var row := db.revisions[RevisionId(binding, 1)];
          row.content == content && row.references == []
  }

  /** The database after the first two steps. */
  predicate TwoCreated(db: Db) {
    && db.environments == map["staging" := Environment(STAGING_ID, "staging", false),
                              "production" := Environment(PRODUCTION_ID, "production", false)]
    && db.configs == map[] && db.states == map[] && db.revisions == map[]
    && db.operations.Keys == {"operation-1", "operation-2"}
  }

  lemma CreatesTwo(d0: Db, d1: Db, d2: Db)
    requires d0 == Initial()
    requires d1 == Apply(PlainCodec(), d0, Environments(CreateRequest("operation-1", "staging"), STAGING_ID))
    requires d2 == Apply(PlainCodec(), d1, Environments(CreateRequest("operation-2", "production"), PRODUCTION_ID))
    ensures TwoCreated(d2)
  {
    hide ValidOperationId, ValidResourceKey, ChangeEnvironment, CommitConfig, CreateSentinel;
    PlainTexts();
    CreatesEnvironment(d0, "operation-1", "staging", STAGING_ID);
    CreatesEnvironment(d1, "operation-2", "production", PRODUCTION_ID);
  }

  lemma CommitsTwo(d2: Db, d3: Db, d4: Db)
    requires TwoCreated(d2)
    requires d3 == CommitConfig(PlainCodec(), d2, CommitRequest("operation-3", "staging", "1\n"), COMMIT, CONFIG_ID).0
    requires d4 == CommitConfig(PlainCodec(), d3, CommitRequest("operation-4", "production", "2\n"), COMMIT,
                                CONFIG_ID).0
    ensures Holding(d4, "staging", STAGING_ID, "1\n") && Holding(d4, "production", PRODUCTION_ID, "2\n")
  {
    hide ValidOperationId, ValidResourceKey, CommitConfig, PlainCodec;
    PlainTexts();
    FirstCommit(d2, "operation-3", "staging", "1\n", CONFIG_ID);
    assert Holding(d3, "staging", STAGING_ID, "1\n");
    FirstCommit(d3, "operation-4", "production", "2\n", CONFIG_ID);
  }

  lemma TwoEnvironmentsRun() returns (states: seq<Db>)
    ensures |states| == 5 && states[0] == Initial()
    ensures IsRun(PlainCodec(), states, TwoEnvironments(states[2], states[3]))
    ensures Holding(states[4], "staging", STAGING_ID, "1\n") && Holding(states[4], "production", PRODUCTION_ID, "2\n")
  {
    hide ChangeEnvironment, CommitConfig, CommitAt, SeenBefore, CreateSentinel, Holding, TwoCreated, Initial;
    var codec := PlainCodec();
    var d0 := Initial();
    var d1 := ChangeEnvironment(d0, CreateRequest("operation-1", "staging"), STAGING_ID).0;
    var d2 := ChangeEnvironment(d1, CreateRequest("operation-2", "production"), PRODUCTION_ID).0;
    var d3 := CommitConfig(codec, d2, CommitRequest("operation-3", "staging", "1\n"), COMMIT, CONFIG_ID).0;
    var d4 := CommitConfig(codec, d3, CommitRequest("operation-4", "production", "2\n"), COMMIT, CONFIG_ID).0;
    PromptCommit(codec, d2, CommitRequest("operation-3", "staging", "1\n"), COMMIT, CONFIG_ID);
    PromptCommit(codec, d3, CommitRequest("operation-4", "production", "2\n"), COMMIT, CONFIG_ID);
    CreatesTwo(d0, d1, d2);
    CommitsTwo(d2, d3, d4);
    states := [d0, d1, d2, d3, d4];
  }

  /** The environment is not part of the ETag: in a run of four requests two environments come to hold
      different contents of one Config under the same ETag. */
  lemma EtagOmitsEnvironment() returns (states: seq<Db>, reader: Reader, etag: string)
    ensures |states| == 5 && states[0] == Initial()
    ensures IsRun(PlainCodec(), states, TwoEnvironments(states[2], states[3]))
    ensures DbWell(states[4])
    ensures var db := states[4];
            && Accepted(db, "staging", "app", None) && Accepted(db, "production", "app", None)
            && IsEtag(db, "staging", "app", etag) && IsEtag(db, "production", "app", etag)
            && forall master :: FullContent(reader, master, db, "staging", "app") == Some("1\n")
                                && FullContent(reader, master, db, "production", "app") == Some("2\n")
  {
    hide DbWell, IsRun, ConfigText, Initial, TwoEnvironments;
    states := TwoEnvironmentsRun();
    InitialIsWell();
    RunKeeps(PlainCodec(), states, TwoEnvironments(states[2], states[3]), 4, 4);
    reader := Reader((plain: string) => None, (format: string, content: string, values: Values) => Some(content));
    etag := ConfigText(CONFIG_ID, 1, [], map[]);
    ReadsHeld(states[4], reader, "staging", STAGING_ID, "1\n", etag);
    ReadsHeld(states[4], reader, "production", PRODUCTION_ID, "2\n", etag);
  }

  lemma ReadsHeld(db: Db, reader: Reader, environmentKey: string, environmentId: string, content: string, etag: string)
    requires Holding(db, environmentKey, environmentId, content) && |environmentId| == 16 && |content| == 2
    requires etag == ConfigText(CONFIG_ID, 1, [], map[])
    requires forall f, c, v :: reader.resolve(f, c, v) == Some(c)
    ensures Accepted(db, environmentKey, "app", None) && IsEtag(db, environmentKey, "app", etag)
    ensures forall master :: FullContent(reader, master, db, environmentKey, "app") == Some(content)
  {
    hide ConfigText;
    assert ItemKeys([]) == {};
    assert ItemsRead(db, environmentId, {}) == map[];
    assert InOrder([], map[]);
    assert IsConfigText(etag, CONFIG_ID, 1, map[]);
    forall master ensures ValuesRead(reader, master, db, environmentId, []) == map[] {
    }
  }

  // ----- A file where a text is expected -----

  const ITEM := ItemKey("team", "tls")
  const ITEM_ID := "fedcba9876543210"
  const FILE_REFERENCE := Reference("team", "tls", "certificate")

  /** Referring to a field that holds a file gives no warning, and no read ever finds a value. */
  lemma FileFieldGap(reader: Reader, master: string, db: Db, environmentId: string, r: Reference)
    requires ItemsWell(db) && Usable(db, environmentId, r)
    requires db.vaultRows[CurrentRow(db.vaultItems[KeyOf(r)])].fields[r.fieldKey].fieldType == "file"
    ensures Warnings(db, environmentId, [r]) == [] && ValueOf(reader, master, db, environmentId, r).None?
  {
    hide ItemsWell, ReadPayload;
    WarningsAndValues(reader, master, db, environmentId, r);
    assert Warnings(db, environmentId, []) == [];
  }

  const RANDOM := Randomness("0123456789abcdef0123456789abcdef", "nonce-------", "nonce-------")

  function SealedSnapshot(): Result<Encrypted> {
    Encrypt("master", Snapshot(KeyRotation.Hex(ITEM_ID), 1), "snapshot", RANDOM)
  }

  /** The item's only field is a file, and its record is sealed for its first revision. */
  function FileRow(): VaultRow {
    var encrypted := if SealedSnapshot().Ok? then SealedSnapshot().value
        else Encrypted("", "", "", Forged(""), TooShort);
    VaultRow(map["certificate" := Field("file", false)], map[STAGING_ID := "variant------id1"],
             KeyRotation.Row("", encrypted))
  }

  function FileSteps(): seq<Step> {
    [Environments(CreateRequest("operation-1", "staging"), STAGING_ID), PutVault(ITEM, ITEM_ID, FileRow())]
  }

  lemma SnapshotOpens()
    ensures SealedSnapshot().Ok?
    ensures Decrypt("master", Snapshot(KeyRotation.Hex(ITEM_ID), 1), SealedSnapshot().value) == Ok("snapshot")
  {
    hide Encrypt, Decrypt, KeyRotation.Hex;
    KeyRotation.HexLength(ITEM_ID);
    EncryptDecrypts("master", Snapshot(KeyRotation.Hex(ITEM_ID), 1), "snapshot", RANDOM);
  }

  lemma FileRowSealed(db: Db)
    requires db.sentinel == CreateSentinel("master", "nonce-------")
    ensures SealedFor(db, KeyRotation.RowKey(ITEM_ID, 1), FileRow())
  {
    hide Encrypt, Decrypt, CreateSentinel, VerifySentinel, KeyRotation.Hex, SealedSnapshot;
    SnapshotOpens();
    SentinelIdentifiesKey("master", "nonce-------", "master");
    assert DecryptVault("master", KeyRotation.RowKey(ITEM_ID, 1), FileRow()).Ok?;
  }

  /** A commit accepts the reference without a warning, and nobody can read a value for it. */
  ghost predicate UnwarnedAndUnread(db: Db, environmentId: string, r: Reference) {
    && Usable(db, environmentId, r) && Warnings(db, environmentId, [r]) == []
    && forall reader, master :: ValueOf(reader, master, db, environmentId, r).None?
  }

  /** Such a database is reached in two steps. */
  lemma FileFieldRun() returns (states: seq<Db>)
    ensures |states| == 3 && IsRun(PlainCodec(), states, FileSteps()) && states[0] == Initial() && DbWell(states[2])
    ensures UnwarnedAndUnread(states[2], STAGING_ID, FILE_REFERENCE)
  {
    hide ChangeEnvironment, DbWell, Initial, FileRow, SealedFor, ValidOperationId, Warnings, ValueOf, Enabled, Apply,
         Usable;
    var d0 := Initial();
    var d1 := Apply(PlainCodec(), d0, FileSteps()[0]);
    var d2 := Apply(PlainCodec(), d1, FileSteps()[1]);
    FileStepsReach(d0, d1, d2);
    states := [d0, d1, d2];
    InitialIsWell();
    RunKeeps(PlainCodec(), states, FileSteps(), 2, 2);
    WellItems(d2);
    forall reader, master ensures ValueOf(reader, master, d2, STAGING_ID, FILE_REFERENCE).None? {
      FileFieldGap(reader, master, d2, STAGING_ID, FILE_REFERENCE);
    }
    FileFieldGap(Reader((plain: string) => None, (format: string, content: string, values: Values) => None), "", d2,
                 STAGING_ID,
                 FILE_REFERENCE);
  }

  lemma WellItems(db: Db)
    requires DbWell(db)
    ensures ItemsWell(db)
  {
    hide StoreWell, ItemsWell, AllDecrypt;
  }

  lemma FileStepsReach(d0: Db, d1: Db, d2: Db)
    requires d0 == Initial() && d1 == Apply(PlainCodec(), d0, FileSteps()[0])
    requires d2 == Apply(PlainCodec(), d1, FileSteps()[1])
    ensures Enabled(d0, FileSteps()[0]) && Enabled(d1, FileSteps()[1])
    ensures Usable(d2, STAGING_ID, FILE_REFERENCE)
    ensures d2.vaultRows[CurrentRow(d2.vaultItems[ITEM])].fields["certificate"].fieldType == "file"
  {
    hide ValidOperationId, ChangeEnvironment, CreateSentinel, SealedFor, SealedSnapshot, ValidResourceKey;
    PlainTexts();
    CreatesEnvironment(d0, "operation-1", "staging", STAGING_ID);
    FileRowSealed(d1);
    PutFile(d1, d2);
  }

  lemma PutFile(db: Db, now: Db)
    requires db.vaultItems == map[] && db.vaultRows == map[] && now == PutRow(db, ITEM, ITEM_ID, FileRow())
    ensures Usable(now, STAGING_ID, FILE_REFERENCE)
    ensures now.vaultRows[CurrentRow(now.vaultItems[ITEM])].fields["certificate"].fieldType == "file"
  {
    hide SealedSnapshot;
  }
}
