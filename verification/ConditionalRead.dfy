/** Reading a resolved Config with an ETag: "not modified" is only ever answered when a full read would
    return the same content. Models ReadResolvedConfig, readReferences, readVaultMetadata and
    readVaultTextValues of internal/storage/mysqlstore/machine.go. */
module ConditionalRead {
  import opened Ordering
  import opened References
  import opened Encoding
  import opened VaultCrypto
  import opened ConfigStore
  import opened StoreInvariants
  import opened StoreRuns
  import opened StoreGuarantees
  import opened Etags
  import KeyRotation

  const MAX_CONFIG_BYTES: nat := 5 * 1024 * 1024
  const MAX_SNAPSHOT_BYTES: nat := 10 * 1024 * 1024
  const MAX_TEXT_BYTES: nat := 512 * 1024
  const SEAL_OVERHEAD: nat := 16

  /** A decoded Vault snapshot: per variant, the text of each field, or None for a file. */
  type Payload = map<string, map<string, Option<string>>>

  type Values = map<Reference, string>

  /** Decoding a snapshot and resolving a document, as functions of what they read. */
  datatype Reader = Reader(decode: string -> Option<Payload>, resolve: (string, string, Values) -> Option<string>)

  /** What an API token may read; None allows everything. */
  datatype Scope = Scope(configKeys: Option<set<string>>, namespaceKeys: Option<set<string>>)

  datatype ReadResult =
    | NotFound
    | Corrupt
    | Forbidden
    | Unresolved
    | NotModified(revision: nat, etag: string)
    | Resolved(revision: nat, etag: string, content: string)

  // ----- What a read sees -----

  datatype Located = Located(environmentId: string, configId: string, revision: nat, row: Revision)

  /** The query for the current revision of an active Config in an active environment. */
  function Locate(db: Db, environmentKey: string, configKey: string): Option<Located> {
    if !Active(db, environmentKey) || configKey !in db.configs || db.configs[configKey].archived then None
    else
      var binding := Binding(db.configs[configKey].id, db.environments[environmentKey].id);
      if binding in db.states && RevisionId(binding, db.states[binding]) in db.revisions
      then Some(Located(binding.environmentId, binding.configId, db.states[binding],
                        db.revisions[RevisionId(binding, db.states[binding])]))
      else None
  }

  predicate IntactLocation(at: Located) {
    |at.environmentId| == 16 && |at.configId| == 16 && at.revision != 0 && |at.row.content| <= MAX_CONFIG_BYTES
  }

  function KeyOf(r: Reference): ItemKey {
    ItemKey(r.namespaceKey, r.itemKey)
  }

  function ItemKeys(references: seq<Reference>): set<ItemKey> {
    set r | r in references :: KeyOf(r)
  }

  predicate Allowed(scope: Option<Scope>, configKey: string, keys: set<ItemKey>) {
    scope.Some? ==>
      && (scope.value.configKeys.Some? ==> configKey in scope.value.configKeys.value)
      && (scope.value.namespaceKeys.Some? ==> forall k | k in keys :: k.namespaceKey in scope.value.namespaceKeys.value)
  }

  datatype Metadata = Metadata(version: Version, variantId: string)

  /** readOneVaultMetadata's query. */
  function FindMetadata(db: Db, environmentId: string, key: ItemKey): Option<Metadata> {
    if key !in db.vaultItems || db.vaultItems[key].archived then None
    else
      var item := db.vaultItems[key];
      if CurrentRow(item) in db.vaultRows && environmentId in db.vaultRows[CurrentRow(item)].bindings
      then Some(Metadata(Version(item.id, item.currentRevision),
                         db.vaultRows[CurrentRow(item)].bindings[environmentId]))
      else None
  }

  predicate IntactMetadata(m: Metadata) {
    |m.version.itemId| == 16 && |m.variantId| == 16 && m.version.revision != 0
  }

  /** Every item the document refers to is there for this environment. */
  predicate ItemsReadable(db: Db, environmentId: string, keys: set<ItemKey>) {
    forall k | k in keys :: FindMetadata(db, environmentId, k).Some?
        && IntactMetadata(FindMetadata(db, environmentId, k).value)
  }

  function ItemsRead(db: Db, environmentId: string, keys: set<ItemKey>): (items: Items)
    requires ItemsReadable(db, environmentId, keys)
  {
    map k | k in keys :: FindMetadata(db, environmentId, k).value.version
  }

  /** readVaultTextValues for one field. */
  function ReadValue(reader: Reader, master: string, db: Db, m: Metadata, fieldKey: string): Option<string> {
    var key := KeyRotation.RowKey(m.version.itemId, m.version.revision);
    if key !in db.vaultRows then None
    else
      match ReadPayload(reader, master, db, m)
      case None => None
      case Some(payload) => ValueIn(db.vaultRows[key].fields, payload, m.variantId, fieldKey)
  }

  /** decryptVaultPayload. */
  function ReadPayload(reader: Reader, master: string, db: Db, m: Metadata): Option<Payload> {
    var key := KeyRotation.RowKey(m.version.itemId, m.version.revision);
    if key !in db.vaultRows then None
    else
      match DecryptVault(master, key, db.vaultRows[key])
      case Err(_) => None
      case Ok(plain) => if |plain| + SEAL_OVERHEAD > MAX_SNAPSHOT_BYTES + 32 then None else reader.decode(plain)
  }

  function ValueIn(fields: map<string, Field>, payload: Payload, variantId: string, fieldKey: string): Option<string> {
    if fieldKey !in fields || fields[fieldKey].archived then None
    else if fields[fieldKey].fieldType != "text" && fields[fieldKey].fieldType != "secret" then None
    else if KeyRotation.Hex(variantId) !in payload || fieldKey !in payload[KeyRotation.Hex(variantId)] then None
    else
      var value := payload[KeyRotation.Hex(variantId)][fieldKey];
      if value.Some? && |value.value| <= MAX_TEXT_BYTES then value else None
  }

  /** The value a reference stands for in this environment. */
  function ValueOf(reader: Reader, master: string, db: Db, environmentId: string, r: Reference): Option<string> {
    match FindMetadata(db, environmentId, KeyOf(r))
    case None => None
    case Some(m) => ReadValue(reader, master, db, m, r.fieldKey)
  }

  predicate ValuesReadable(reader: Reader, master: string, db: Db, environmentId: string, references: seq<Reference>) {
    forall r | r in references :: ValueOf(reader, master, db, environmentId, r).Some?
  }

  function ValuesRead(reader: Reader, master: string, db: Db, environmentId: string,
                      references: seq<Reference>): (values: Values)
    requires ValuesReadable(reader, master, db, environmentId, references)
  {
    map r | r in references :: ValueOf(reader, master, db, environmentId, r).value
  }

  /** The checks before the ETag is compared all pass. */
  predicate Accepted(db: Db, environmentKey: string, configKey: string, scope: Option<Scope>) {
    var at := Locate(db, environmentKey, configKey);
    at.Some? && IntactLocation(at.value) && Allowed(scope, configKey, ItemKeys(at.value.row.references))
    && ItemsReadable(db, at.value.environmentId, ItemKeys(at.value.row.references))
  }

  /** What the resolved document depends on. */
  function FullContent(reader: Reader, master: string, db: Db, environmentKey: string,
                       configKey: string): Option<string> {
    var at := Locate(db, environmentKey, configKey);
    if at.None? || !ValuesReadable(reader, master, db, at.value.environmentId, at.value.row.references) then None
    else reader.resolve(at.value.row.format, at.value.row.content,
                        ValuesRead(reader, master, db, at.value.environmentId, at.value.row.references))
  }

  /** The text behind the ETag of the Config as it is now. */
  ghost predicate IsEtag(db: Db, environmentKey: string, configKey: string, etag: string) {
    var at := Locate(db, environmentKey, configKey);
    at.Some? && ItemsReadable(db, at.value.environmentId, ItemKeys(at.value.row.references)) &&
    IsConfigText(etag, at.value.configId, at.value.revision,
                 ItemsRead(db, at.value.environmentId, ItemKeys(at.value.row.references)))
  }

  // ----- The same from the tables alone -----

  /** Environment and Config are there and active, and the Config has a current revision in the environment. */
  predicate Served(db: Db, environmentKey: string, configKey: string) {
    && environmentKey in db.environments && !db.environments[environmentKey].archived
    && configKey in db.configs && !db.configs[configKey].archived
    && CurrentDocument(db, environmentKey, configKey).Some?
  }

  /** Identities and sizes are as the schema has them. */
  predicate Intact(db: Db, environmentKey: string, configKey: string)
    requires Served(db, environmentKey, configKey)
  {
    && |db.environments[environmentKey].id| == 16 && |db.configs[configKey].id| == 16
    && CurrentRevision(db, environmentKey, configKey) != 0
    && |CurrentDocument(db, environmentKey, configKey).value.content| <= 5 * 1024 * 1024
  }

  /** The scope, if there is one, lists the Config and the namespaces of all references. */
  predicate InScope(scope: Option<Scope>, configKey: string, references: seq<Reference>) {
    match scope
    case None => true
    case Some(Scope(configKeys, namespaceKeys)) =>
      && (configKeys.Some? ==> configKey in configKeys.value)
      && (namespaceKeys.Some? ==> forall r | r in references :: r.namespaceKey in namespaceKeys.value)
  }

  /** The reference's item is there, and its current revision has a variant for the environment. */
  predicate ItemServed(db: Db, environmentId: string, r: Reference) {
    var key := ItemKey(r.namespaceKey, r.itemKey);
    && key in db.vaultItems && !db.vaultItems[key].archived
    && var row := KeyRotation.RowKey(db.vaultItems[key].id, db.vaultItems[key].currentRevision);
       && row in db.vaultRows && environmentId in db.vaultRows[row].bindings
       && |row.id| == 16 && row.revision != 0 && |db.vaultRows[row].bindings[environmentId]| == 16
  }

  /** The reference stands for the value: the payload of the item's current revision opens and holds it, as a text
      or a secret that is not archived, in the variant for the environment. */
  ghost predicate StandsFor(reader: Reader, master: string, db: Db, environmentId: string, r: Reference,
                            value: string) {
    var key := ItemKey(r.namespaceKey, r.itemKey);
    && key in db.vaultItems && !db.vaultItems[key].archived
    && var at := KeyRotation.RowKey(db.vaultItems[key].id, db.vaultItems[key].currentRevision);
       && at in db.vaultRows && environmentId in db.vaultRows[at].bindings
       && var row := db.vaultRows[at];
          && r.fieldKey in row.fields && !row.fields[r.fieldKey].archived
          && (row.fields[r.fieldKey].fieldType == "text" || row.fields[r.fieldKey].fieldType == "secret")
          && |value| <= 512 * 1024
          && exists plain ::
               && KeyRotation.DecryptRow(master, KeyRotation.VaultRevisions, at, row.row) == Ok(plain)
               && |plain| <= 10 * 1024 * 1024 + 16
               && Shows(reader.decode(plain), KeyRotation.Hex(row.bindings[environmentId]), r.fieldKey, value)
  }

  predicate Shows(payload: Option<Payload>, variant: string, fieldKey: string, value: string) {
    && payload.Some? && variant in payload.value && fieldKey in payload.value[variant]
    && payload.value[variant][fieldKey] == Some(value)
  }

  /** The table holds what each of the references stands for, and nothing else. */
  ghost predicate Looked(reader: Reader, master: string, db: Db, environmentId: string, references: seq<Reference>,
                         values: Values) {
    && (forall r :: r in values <==> r in references)
    && (forall r | r in references :: StandsFor(reader, master, db, environmentId, r, values[r]))
  }

  /** The content is the current document with these values put in. */
  ghost predicate ServesContent(reader: Reader, master: string, db: Db, environmentKey: string, configKey: string,
                                content: string)
    requires Served(db, environmentKey, configKey)
  {
    var current := CurrentDocument(db, environmentKey, configKey).value;
    exists values ::
      && Looked(reader, master, db, db.environments[environmentKey].id, current.references, values)
      && reader.resolve(current.format, current.content, values) == Some(content)
  }

  /** The current revision of every item referred to. */
  ghost predicate CurrentVersions(db: Db, references: seq<Reference>, items: Items) {
    && (forall k :: k in items <==> exists r :: r in references && ItemKey(r.namespaceKey, r.itemKey) == k)
    && (forall k | k in items ::
          k in db.vaultItems && items[k] == Version(db.vaultItems[k].id, db.vaultItems[k].currentRevision))
  }

  /** The text tells the Config, its current revision and the current revision of every item referred to. */
  ghost predicate TagsVersions(db: Db, environmentKey: string, configKey: string, etag: string)
    requires Served(db, environmentKey, configKey)
  {
    var references := CurrentDocument(db, environmentKey, configKey).value.references;
    exists items: Items ::
      && CurrentVersions(db, references, items)
      && IsConfigText(etag, db.configs[configKey].id, CurrentRevision(db, environmentKey, configKey), items)
  }

  /** The checks that come before an ETag is compared. */
  predicate Readable(db: Db, environmentKey: string, configKey: string, scope: Option<Scope>) {
    && Served(db, environmentKey, configKey) && Intact(db, environmentKey, configKey)
    && var references := CurrentDocument(db, environmentKey, configKey).value.references;
       && InScope(scope, configKey, references)
       && forall r | r in references :: ItemServed(db, db.environments[environmentKey].id, r)
  }

  lemma LocateExactly(db: Db, environmentKey: string, configKey: string)
    ensures Locate(db, environmentKey, configKey).Some? <==> Served(db, environmentKey, configKey)
    ensures Served(db, environmentKey, configKey) ==>
              var at := Locate(db, environmentKey, configKey).value;
              && at.environmentId == db.environments[environmentKey].id && at.configId == db.configs[configKey].id
              && at.revision == CurrentRevision(db, environmentKey, configKey)
              && at.row == CurrentDocument(db, environmentKey, configKey).value
              && (IntactLocation(at) <==> Intact(db, environmentKey, configKey))
  {
  }

  lemma AllowedExactly(scope: Option<Scope>, configKey: string, references: seq<Reference>)
    ensures Allowed(scope, configKey, ItemKeys(references)) <==> InScope(scope, configKey, references)
  {
    forall r | r in references ensures KeyOf(r) in ItemKeys(references) {
    }
  }

  lemma ItemsReadableExactly(db: Db, environmentId: string, references: seq<Reference>)
    ensures ItemsReadable(db, environmentId, ItemKeys(references)) <==>
            forall r | r in references :: ItemServed(db, environmentId, r)
  {
    forall r | r in references ensures KeyOf(r) in ItemKeys(references) {
    }
    forall r: Reference | true
      ensures ItemServed(db, environmentId, r) <==>
              FindMetadata(db, environmentId, KeyOf(r)).Some?
              && IntactMetadata(FindMetadata(db, environmentId, KeyOf(r)).value)
    {
    }
  }

  lemma ValueExactly(reader: Reader, master: string, db: Db, environmentId: string, r: Reference, value: string)
    ensures ValueOf(reader, master, db, environmentId, r) == Some(value) <==>
            StandsFor(reader, master, db, environmentId, r, value)
  {
    hide KeyRotation.Hex, KeyRotation.DecryptRow;
  }
  lemma AcceptedExactly(db: Db, environmentKey: string, configKey: string, scope: Option<Scope>)
    ensures Accepted(db, environmentKey, configKey, scope) <==> Readable(db, environmentKey, configKey, scope)
  {
    hide Locate, Served, Intact, IntactLocation, Allowed, InScope, ItemsReadable, ItemServed, ItemKeys;
    LocateExactly(db, environmentKey, configKey);
    if Served(db, environmentKey, configKey) {
      var at := Locate(db, environmentKey, configKey).value;
      AllowedExactly(scope, configKey, at.row.references);
      ItemsReadableExactly(db, at.environmentId, at.row.references);
    }
  }

  lemma LookedExactly(reader: Reader, master: string, db: Db, environmentId: string, references: seq<Reference>,
                      values: Values)
    ensures Looked(reader, master, db, environmentId, references, values) <==>
            && ValuesReadable(reader, master, db, environmentId, references)
            && values == ValuesRead(reader, master, db, environmentId, references)
  {
    hide StandsFor, ValueOf;
    forall r, v ensures ValueOf(reader, master, db, environmentId, r) == Some(v) <==>
                        StandsFor(reader, master, db, environmentId, r, v)
    {
      ValueExactly(reader, master, db, environmentId, r, v);
    }
  }

  lemma ContentExactly(reader: Reader, master: string, db: Db, environmentKey: string, configKey: string,
                       content: string)
    requires Served(db, environmentKey, configKey)
    ensures FullContent(reader, master, db, environmentKey, configKey) == Some(content) <==>
            ServesContent(reader, master, db, environmentKey, configKey, content)
  {
    hide Locate, Served, Looked, ValuesReadable, ValuesRead, CurrentDocument;
    LocateExactly(db, environmentKey, configKey);
    var at := Locate(db, environmentKey, configKey).value;
    forall values ensures Looked(reader, master, db, at.environmentId, at.row.references, values) <==>
                          && ValuesReadable(reader, master, db, at.environmentId, at.row.references)
                          && values == ValuesRead(reader, master, db, at.environmentId, at.row.references)
    {
      LookedExactly(reader, master, db, at.environmentId, at.row.references, values);
    }
  }

  lemma VersionsExactly(db: Db, environmentId: string, references: seq<Reference>, items: Items)
    requires ItemsReadable(db, environmentId, ItemKeys(references))
    requires CurrentVersions(db, references, items)
    ensures items == ItemsRead(db, environmentId, ItemKeys(references))
  {
    hide IntactMetadata;
    forall k ensures k in ItemKeys(references) <==> k in items {
      if k in items {
        var r :| r in references && ItemKey(r.namespaceKey, r.itemKey) == k;
        assert KeyOf(r) == k;
      }
    }
  }

  lemma ReadVersions(db: Db, environmentId: string, references: seq<Reference>)
    requires ItemsReadable(db, environmentId, ItemKeys(references))
    ensures CurrentVersions(db, references, ItemsRead(db, environmentId, ItemKeys(references)))
  {
    hide IntactMetadata;
    forall k
      ensures k in ItemKeys(references) <==> exists r :: r in references && ItemKey(r.namespaceKey, r.itemKey) == k
    {
      if exists r :: r in references && ItemKey(r.namespaceKey, r.itemKey) == k {
        var r :| r in references && ItemKey(r.namespaceKey, r.itemKey) == k;
        assert KeyOf(r) == k;
      }
      if k in ItemKeys(references) {
        var r :| r in references && KeyOf(r) == k;
        assert ItemKey(r.namespaceKey, r.itemKey) == k;
      }
    }
  }

  lemma EtagExactly(db: Db, environmentKey: string, configKey: string, etag: string)
    requires Served(db, environmentKey, configKey)
    requires ItemsReadable(db, db.environments[environmentKey].id,
                           ItemKeys(CurrentDocument(db, environmentKey, configKey).value.references))
    ensures IsEtag(db, environmentKey, configKey, etag) <==> TagsVersions(db, environmentKey, configKey, etag)
  {
    hide Locate, ItemsReadable, ItemsRead, CurrentDocument, CurrentRevision, IsConfigText, CurrentVersions;
    LocateExactly(db, environmentKey, configKey);
    var at := Locate(db, environmentKey, configKey).value;
    ReadVersions(db, at.environmentId, at.row.references);
    forall items | CurrentVersions(db, at.row.references, items)
      ensures items == ItemsRead(db, at.environmentId, ItemKeys(at.row.references))
    {
      VersionsExactly(db, at.environmentId, at.row.references, items);
    }
  }

  // ----- The method -----

  /** readReferences: the rows grouped by item. */
  method ReadReferences(references: seq<Reference>) returns (grouped: map<ItemKey, seq<string>>)
    ensures grouped.Keys == ItemKeys(references) && forall k | k in grouped :: grouped[k] != []
    ensures forall k, f | k in grouped :: f in grouped[k] <==> Reference(k.namespaceKey, k.itemKey, f) in references
  {
    grouped := map[];
    for i := 0 to |references|
      invariant grouped.Keys == ItemKeys(references[..i]) && forall k | k in grouped :: grouped[k] != []
      invariant forall k, f | k in grouped ::
                  f in grouped[k]
                  <==> Reference(k.namespaceKey, k.itemKey, f) in references[..i]
    {
      var r := references[i];
      assert references[..i + 1] == references[..i] + [r];
      GroupStep(references[..i], r);
      var fields := if KeyOf(r) in grouped then grouped[KeyOf(r)] else [];
      assert KeyOf(r) !in grouped ==> forall f :: Reference(r.namespaceKey, r.itemKey, f) !in references[..i] by {
        forall f | Reference(r.namespaceKey, r.itemKey, f) in references[..i]
          ensures KeyOf(r) in ItemKeys(references[..i])
        {
          assert KeyOf(Reference(r.namespaceKey, r.itemKey, f)) == KeyOf(r);
        }
      }
      grouped := grouped[KeyOf(r) := fields + [r.fieldKey]];
    }
    assert references[..|references|] == references;
  }

  lemma GroupStep(references: seq<Reference>, r: Reference)
    ensures ItemKeys(references + [r]) == ItemKeys(references) + {KeyOf(r)}
  {
    forall k | k in ItemKeys(references) ensures k in ItemKeys(references + [r]) {
      var s :| s in references && KeyOf(s) == k;
      assert s in references + [r];
    }
    assert r in references + [r];
  }

  /** readVaultMetadata, in whatever order the map yields its keys. */
  method ReadVaultMetadata(db: Db, environmentId: string, keys: set<ItemKey>)
    returns (error: Option<ReadResult>, items: map<ItemKey, Metadata>)
    ensures error.None? <==> ItemsReadable(db, environmentId, keys)
    ensures error.None? ==> items == map k | k in keys :: FindMetadata(db, environmentId, k).value
    ensures error.Some? ==> error.value == Unresolved || error.value == Corrupt
  {
    items := map[];
    var left := keys;
    while left != {}
      invariant left <= keys && items.Keys == keys - left
      invariant ItemsReadable(db, environmentId, keys - left)
      invariant forall k | k in items :: items[k] == FindMetadata(db, environmentId, k).value
      decreases |left|
    {
      var k :| k in left;
      var m := FindMetadata(db, environmentId, k);
      if m.None? {
        return Some(Unresolved), items;
      }
      if !IntactMetadata(m.value) {
        return Some(Corrupt), items;
      }
      items := items[k := m.value];
      left := left - {k};
    }
    error := None;
  }

  /** readVaultTextValues: all fields asked of one item. */
  method ReadVaultTextValues(reader: Reader, master: string, db: Db, m: Metadata, fieldKeys: seq<string>)
    returns (error: Option<ReadResult>, values: map<string, string>)
    requires fieldKeys != []
    ensures error.None? <==> forall f | f in fieldKeys :: ReadValue(reader, master, db, m, f).Some?
    ensures error.None? ==> values == map f | f in fieldKeys :: ReadValue(reader, master, db, m, f).value
    ensures error.Some? ==> error.value == Unresolved || error.value == Corrupt
  {
    hide KeyRotation.Hex;
    values := map[];
    var key := KeyRotation.RowKey(m.version.itemId, m.version.revision);
    if key !in db.vaultRows {
      assert ReadValue(reader, master, db, m, fieldKeys[0]).None?;
      return Some(Unresolved), values;
    }
    var fieldTypes := db.vaultRows[key].fields;
    var payload := ReadPayload(reader, master, db, m);
    if payload.None? {
      assert ReadValue(reader, master, db, m, fieldKeys[0]).None?;
      return Some(Corrupt), values;
    }
    if KeyRotation.Hex(m.variantId) !in payload.value {
      assert ReadValue(reader, master, db, m, fieldKeys[0]).None?;
      return Some(Unresolved), values;
    }
    for i := 0 to |fieldKeys|
      invariant forall f | f in fieldKeys[..i] :: ReadValue(reader, master, db, m, f).Some?
      invariant values == map f | f in fieldKeys[..i] :: ReadValue(reader, master, db, m, f).value
    {
      var f := fieldKeys[i];
      var value := ValueIn(fieldTypes, payload.value, m.variantId, f);
      assert value == ReadValue(reader, master, db, m, f);
      if value.None? {
        return Some(Unresolved), values;
      }
      assert fieldKeys[..i + 1] == fieldKeys[..i] + [f];
      values := values[f := value.value];
    }
    assert fieldKeys[..|fieldKeys|] == fieldKeys;
    error := None;
  }

  /** The lookup table holds the values of all references but those to the items that are left. */
  predicate Filled(reader: Reader, master: string, db: Db, environmentId: string, references: seq<Reference>,
                   left: set<ItemKey>, values: Values) {
    && (forall r | r in values :: r in references && KeyOf(r) !in left)
    && (forall r | r in references && KeyOf(r) !in left :: r in values)
    && (forall r | r in values :: ValueOf(reader, master, db, environmentId, r) == Some(values[r]))
  }

  lemma NothingFilled(reader: Reader, master: string, db: Db, environmentId: string, references: seq<Reference>)
    ensures Filled(reader, master, db, environmentId, references, ItemKeys(references), map[])
  {
    forall r | r in references ensures KeyOf(r) in ItemKeys(references) {
    }
  }

  lemma AllFilled(reader: Reader, master: string, db: Db, environmentId: string, references: seq<Reference>,
                  values: Values)
    requires Filled(reader, master, db, environmentId, references, {}, values)
    ensures ValuesReadable(reader, master, db, environmentId, references)
    ensures values == ValuesRead(reader, master, db, environmentId, references)
  {
    hide ValueOf;
  }

  lemma ItemFound(db: Db, environmentId: string, keys: set<ItemKey>, items: map<ItemKey, Metadata>, k: ItemKey)
    requires ItemsReadable(db, environmentId, keys) && k in keys
    requires items == map k | k in keys :: FindMetadata(db, environmentId, k).value
    ensures k in items && FindMetadata(db, environmentId, k) == Some(items[k])
  {
    hide FindMetadata, IntactMetadata;
  }

  lemma FillsMore(reader: Reader, master: string, db: Db, environmentId: string, references: seq<Reference>,
                  left: set<ItemKey>, values: Values, k: ItemKey, m: Metadata, fieldKeys: seq<string>,
                  itemValues: map<string, string>, added: Values)
    requires Filled(reader, master, db, environmentId, references, left, values) && k in left
    requires FindMetadata(db, environmentId, k) == Some(m)
    requires forall f :: f in fieldKeys <==> Reference(k.namespaceKey, k.itemKey, f) in references
    requires forall f | f in fieldKeys :: ReadValue(reader, master, db, m, f).Some?
    requires itemValues == map f | f in fieldKeys :: ReadValue(reader, master, db, m, f).value
    requires added == map f | f in itemValues :: Reference(k.namespaceKey, k.itemKey, f) := itemValues[f]
    ensures Filled(reader, master, db, environmentId, references, left - {k}, values + added)
  {
    hide FindMetadata, ReadValue;
    forall r | r in references && KeyOf(r) == k ensures r in added {
      assert r == Reference(k.namespaceKey, k.itemKey, r.fieldKey) && r.fieldKey in fieldKeys;
    }
  }

  /** The loop over the items that fills the lookup table. */
  method ReadAllValues(reader: Reader, master: string, db: Db, environmentId: string, references: seq<Reference>,
                       grouped: map<ItemKey, seq<string>>, items: map<ItemKey, Metadata>)
    returns (error: Option<ReadResult>, values: Values)
    requires grouped.Keys == ItemKeys(references) && forall k | k in grouped :: grouped[k] != []
    requires forall k, f | k in grouped :: f in grouped[k] <==> Reference(k.namespaceKey, k.itemKey, f) in references
    requires ItemsReadable(db, environmentId, grouped.Keys)
    requires items == map k | k in grouped.Keys :: FindMetadata(db, environmentId, k).value
    ensures error.None? <==> ValuesReadable(reader, master, db, environmentId, references)
    ensures error.None? ==> values == ValuesRead(reader, master, db, environmentId, references)
    ensures error.Some? ==> error.value == Unresolved || error.value == Corrupt
  {
    hide ValueOf, ReadValue, FindMetadata, IntactMetadata, ItemsReadable, ValuesReadable, ValuesRead, Filled, ItemKeys;
    values := map[];
    var left := items.Keys;
    assert left == grouped.Keys;
    NothingFilled(reader, master, db, environmentId, references);
    while left != {}
      invariant left <= grouped.Keys && Filled(reader, master, db, environmentId, references, left, values)
      decreases |left|
    {
      var k :| k in left;
      var failed, itemValues := ReadVaultTextValues(reader, master, db, items[k], grouped[k]);
      ItemFound(db, environmentId, grouped.Keys, items, k);
      if failed.Some? {
        MissingValue(reader, master, db, environmentId, references, k, items[k], grouped[k]);
        return failed, values;
      }
      var added: Values := map f | f in itemValues :: Reference(k.namespaceKey, k.itemKey, f) := itemValues[f];
      FillsMore(reader, master, db, environmentId, references, left, values, k, items[k], grouped[k], itemValues,
                added);
      values := values + added;
      left := left - {k};
    }
    AllFilled(reader, master, db, environmentId, references, values);
    error := None;
  }

  lemma MissingValue(reader: Reader, master: string, db: Db, environmentId: string, references: seq<Reference>,
                     k: ItemKey, m: Metadata,
                     fieldKeys: seq<string>)
    requires FindMetadata(db, environmentId, k) == Some(m)
    requires exists f :: f in fieldKeys && ReadValue(reader, master, db, m, f).None?
    requires forall f | f in fieldKeys :: Reference(k.namespaceKey, k.itemKey, f) in references
    ensures !ValuesReadable(reader, master, db, environmentId, references)
  {
    hide ReadValue, FindMetadata;
    var f :| f in fieldKeys && ReadValue(reader, master, db, m, f).None?;
    var r := Reference(k.namespaceKey, k.itemKey, f);
    assert KeyOf(r) == k;
    assert ValueOf(reader, master, db, environmentId, r).None?;
  }

  lemma ReadableItemsValid(db: Db, environmentId: string, keys: set<ItemKey>)
    requires DbWell(db) && ItemsReadable(db, environmentId, keys)
    ensures ValidItems(ItemsRead(db, environmentId, keys))
  {
    hide StoreWell, AllDecrypt, HasItem;
  }

  /** What a read answers, from the tables alone: not found unless the Config is served; forbidden exactly when
      the scope leaves it or one of its references out; not modified exactly when all is readable and the
      presented tag names the current versions; and else the content exactly when there is one. */
  ghost predicate ReadAnswers(reader: Reader, master: string, db: Db, environmentKey: string, configKey: string,
                              scope: Option<Scope>, ifNoneMatch: string, result: ReadResult) {
    if !Served(db, environmentKey, configKey) then result.NotFound?
    else
      var references := CurrentDocument(db, environmentKey, configKey).value.references;
      && !result.NotFound?
      && (result.Forbidden? <==> Intact(db, environmentKey, configKey) && !InScope(scope, configKey, references))
      && (result.NotModified? <==> Readable(db, environmentKey, configKey, scope)
                                   && TagsVersions(db, environmentKey, configKey, ifNoneMatch))
      && (result.Resolved? <==> Readable(db, environmentKey, configKey, scope)
                                && !TagsVersions(db, environmentKey, configKey, ifNoneMatch)
                                && exists content ::
                                     ServesContent(reader, master, db, environmentKey, configKey, content))
      && (result.Resolved? ==> ServesContent(reader, master, db, environmentKey, configKey, result.content))
      && (result.Resolved? || result.NotModified? ==>
            result.revision == CurrentRevision(db, environmentKey, configKey)
            && TagsVersions(db, environmentKey, configKey, result.etag))
  }

  /** The same in terms of the functions that the read is made of. */
  ghost predicate ReadsAs(reader: Reader, master: string, db: Db, environmentKey: string, configKey: string,
                          scope: Option<Scope>, ifNoneMatch: string, result: ReadResult) {
    var at := Locate(db, environmentKey, configKey);
    && (result.NotFound? <==> at.None?)
    && (result.Forbidden? <==>
          at.Some? && IntactLocation(at.value) && !Allowed(scope, configKey, ItemKeys(at.value.row.references)))
    && (result.NotModified? <==>
          Accepted(db, environmentKey, configKey, scope) && IsEtag(db, environmentKey, configKey, ifNoneMatch))
    && (result.Resolved? <==>
          Accepted(db, environmentKey, configKey, scope) && !IsEtag(db, environmentKey, configKey, ifNoneMatch)
          && FullContent(reader, master, db, environmentKey, configKey).Some?)
    && (result.Resolved? ==> FullContent(reader, master, db, environmentKey, configKey) == Some(result.content))
    && (result.Resolved? || result.NotModified? ==>
          IsEtag(db, environmentKey, configKey, result.etag) && at.Some? && result.revision == at.value.revision)
  }

  lemma ReadMeans(reader: Reader, master: string, db: Db, environmentKey: string, configKey: string,
                  scope: Option<Scope>, ifNoneMatch: string, result: ReadResult)
    requires ReadsAs(reader, master, db, environmentKey, configKey, scope, ifNoneMatch, result)
    ensures ReadAnswers(reader, master, db, environmentKey, configKey, scope, ifNoneMatch, result)
  {
    hide Locate, Intact, IntactLocation, Allowed, InScope, ItemKeys, FullContent, ServesContent, IsEtag,
         TagsVersions, ItemsReadable, ItemServed, CurrentRevision, CurrentDocument;
    LocateExactly(db, environmentKey, configKey);
    if Served(db, environmentKey, configKey) {
      AcceptedExactly(db, environmentKey, configKey, scope);
      AllowedExactly(scope, configKey, CurrentDocument(db, environmentKey, configKey).value.references);
      forall content ensures FullContent(reader, master, db, environmentKey, configKey) == Some(content) <==>
                             ServesContent(reader, master, db, environmentKey, configKey, content)
      {
        ContentExactly(reader, master, db, environmentKey, configKey, content);
      }
      if Accepted(db, environmentKey, configKey, scope) {
        forall etag ensures IsEtag(db, environmentKey, configKey, etag) <==>
                            TagsVersions(db, environmentKey, configKey, etag)
        {
          EtagExactly(db, environmentKey, configKey, etag);
        }
      }
    }
  }

  /** ReadResolvedConfig, by a store whose provider holds `master`. */
  method ReadResolvedConfig(reader: Reader, master: string, db: Db, environmentKey: string, configKey: string,
                            scope: Option<Scope>, ifNoneMatch: string) returns (result: ReadResult)
    requires DbWell(db)
    ensures ReadsAs(reader, master, db, environmentKey, configKey, scope, ifNoneMatch, result)
    ensures ReadAnswers(reader, master, db, environmentKey, configKey, scope, ifNoneMatch, result)
  {
    hide DbWell, FindMetadata, IntactMetadata, ValueOf, IsConfigText, ValidItems, ItemsReadable, ItemsRead, ItemKeys,
         ValuesReadable, ValuesRead, ReadAnswers;
    forall answer | ReadsAs(reader, master, db, environmentKey, configKey, scope, ifNoneMatch, answer)
      ensures ReadAnswers(reader, master, db, environmentKey, configKey, scope, ifNoneMatch, answer)
    {
      ReadMeans(reader, master, db, environmentKey, configKey, scope, ifNoneMatch, answer);
    }
    var at := Locate(db, environmentKey, configKey);
    if at.None? {
      return NotFound;
    }
    if !IntactLocation(at.value) {
      return Corrupt;
    }
    var references := at.value.row.references;
    var grouped := ReadReferences(references);
    if !Allowed(scope, configKey, grouped.Keys) {
      return Forbidden;
    }
    var failed, items := ReadVaultMetadata(db, at.value.environmentId, grouped.Keys);
    if failed.Some? {
      return failed.value;
    }
    ReadableItemsValid(db, at.value.environmentId, ItemKeys(references));
    var versions: Items := map k | k in items :: items[k].version;
    VersionsRead(db, at.value.environmentId, grouped.Keys, items, versions);
    var etag := ResolvedConfigEtag(at.value.configId, at.value.revision, versions);
    EtagIs(db, environmentKey, configKey, at.value, etag, ifNoneMatch);
    if ifNoneMatch == etag {
      return NotModified(at.value.revision, etag);
    }
    var values;
    failed, values := ReadAllValues(reader, master, db, at.value.environmentId, references, grouped, items);
    if failed.Some? {
      return failed.value;
    }
    var resolved := reader.resolve(at.value.row.format, at.value.row.content, values);
    if resolved.None? {
      return Unresolved;
    }
    result := Resolved(at.value.revision, etag, resolved.value);
  }

  lemma VersionsRead(db: Db, environmentId: string, keys: set<ItemKey>, items: map<ItemKey, Metadata>, versions: Items)
    requires ItemsReadable(db, environmentId, keys)
    requires items == map k | k in keys :: FindMetadata(db, environmentId, k).value
    requires versions == map k | k in items :: items[k].version
    ensures versions == ItemsRead(db, environmentId, keys)
  {
    hide FindMetadata;
  }

  lemma EtagIs(db: Db, environmentKey: string, configKey: string, at: Located, etag: string, other: string)
    requires Locate(db, environmentKey, configKey) == Some(at)
    requires ItemsReadable(db, at.environmentId, ItemKeys(at.row.references))
    requires IsConfigText(etag, at.configId, at.revision, ItemsRead(db, at.environmentId, ItemKeys(at.row.references)))
    ensures IsEtag(db, environmentKey, configKey, other) <==> other == etag
  {
    hide IsConfigText, ItemsReadable, Locate;
    if IsEtag(db, environmentKey, configKey, other) {
      ConfigTextUnique(at.configId, at.revision, ItemsRead(db, at.environmentId, ItemKeys(at.row.references)), etag,
                       other);
    }
  }

  // ----- Not modified means the same content -----

  /** The revision and the versions of its items, which the ETag stands for, agree between a Config in one
      environment and in another, at two moments. */
  predicate SameVersions(a: Db, environmentKey: string, b: Db, otherKey: string, configKey: string) {
    var p, q := Locate(a, environmentKey, configKey), Locate(b, otherKey, configKey);
    && p.Some? && q.Some? && p.value.configId == q.value.configId && p.value.revision == q.value.revision
    && ItemsReadable(a, p.value.environmentId, ItemKeys(p.value.row.references))
    && ItemsReadable(b, q.value.environmentId, ItemKeys(q.value.row.references))
    && ItemsRead(a, p.value.environmentId, ItemKeys(p.value.row.references))
       == ItemsRead(b, q.value.environmentId, ItemKeys(q.value.row.references))
  }

  lemma LocatedFits(db: Db, environmentKey: string, configKey: string)
    requires DbWell(db) && Locate(db, environmentKey, configKey).Some?
    ensures Locate(db, environmentKey, configKey).value.revision < UINT64_LIMIT
  {
    hide VaultWell, OperationsWell, OutboxWell, NeighboursDiffer, BindingsWell, Traced;
  }

  /** Two moments, in the same or in different environments, share an ETag exactly when they share the
      revision number and every item's version. */
  lemma EtagMeansVersions(a: Db, environmentKey: string, scope: Option<Scope>, b: Db, otherKey: string,
                          other: Option<Scope>,
                          configKey: string, etag: string)
    requires DbWell(a) && DbWell(b)
    requires Accepted(a, environmentKey, configKey, scope) && Accepted(b, otherKey, configKey, other)
    requires IsEtag(a, environmentKey, configKey, etag)
    ensures IsEtag(b, otherKey, configKey, etag) <==> SameVersions(a, environmentKey, b, otherKey, configKey)
  {
    hide DbWell, Locate, FindMetadata, IsConfigText, ItemsRead, ValidItems;
    var p, q := Locate(a, environmentKey, configKey).value, Locate(b, otherKey, configKey).value;
    LocatedFits(a, environmentKey, configKey);
    LocatedFits(b, otherKey, configKey);
    ReadableItemsValid(a, p.environmentId, ItemKeys(p.row.references));
    ReadableItemsValid(b, q.environmentId, ItemKeys(q.row.references));
    var items, others := ItemsRead(a, p.environmentId, ItemKeys(p.row.references)),
        ItemsRead(b, q.environmentId, ItemKeys(q.row.references));
    if IsEtag(b, otherKey, configKey, etag) {
      ConfigTextDetermines(etag, p.configId, p.revision, items, q.configId, q.revision, others);
    }
  }

  /** The same versions were recorded once, so they show the same rows. */
  lemma VersionsMeanRows(a: Db, b: Db, environmentKey: string, configKey: string)
    requires Extends(a, b) && SameVersions(a, environmentKey, b, environmentKey, configKey)
    ensures Locate(a, environmentKey, configKey) == Locate(b, environmentKey, configKey)
    ensures var at := Locate(a, environmentKey, configKey).value;
            forall k | k in ItemKeys(at.row.references) ::
              FindMetadata(a, at.environmentId, k) == FindMetadata(b, at.environmentId, k)
  {
    hide OperationsExtend, SamePlainText;
    var p, q := Locate(a, environmentKey, configKey).value, Locate(b, environmentKey, configKey).value;
    assert p.row == q.row && p.environmentId == q.environmentId;
    forall k | k in ItemKeys(p.row.references) ensures FindMetadata(a, p.environmentId, k)
        == FindMetadata(b, p.environmentId, k) {
      var items := ItemsRead(a, p.environmentId, ItemKeys(p.row.references));
      assert items[k] == FindMetadata(a, p.environmentId, k).value.version
          == FindMetadata(b, p.environmentId, k).value.version;
    }
  }

  lemma RowsMeanValues(reader: Reader, a: Db, m: string, b: Db, n: string, environmentId: string, r: Reference)
    requires Extends(a, b) && VerifySentinel(m, a.sentinel) && VerifySentinel(n, b.sentinel)
    requires FindMetadata(a, environmentId, KeyOf(r)).Some?
    requires FindMetadata(a, environmentId, KeyOf(r)) == FindMetadata(b, environmentId, KeyOf(r))
    ensures ValueOf(reader, m, a, environmentId, r) == ValueOf(reader, n, b, environmentId, r)
  {
    hide OperationsExtend, HistoryExtends, VerifySentinel, DecryptVault, ValueIn;
    var metadata := FindMetadata(a, environmentId, KeyOf(r)).value;
    var key := KeyRotation.RowKey(metadata.version.itemId, metadata.version.revision);
    assert SamePlainText(a, b, key);
  }

  lemma SameVersionsSameContent(reader: Reader, a: Db, m: string, b: Db, n: string, environmentKey: string,
                                configKey: string)
    requires Extends(a, b) && VerifySentinel(m, a.sentinel) && VerifySentinel(n, b.sentinel)
    requires SameVersions(a, environmentKey, b, environmentKey, configKey)
    ensures FullContent(reader, m, a, environmentKey, configKey) == FullContent(reader, n, b, environmentKey, configKey)
  {
    hide Extends, VerifySentinel, Locate, FindMetadata, ValueOf, IntactMetadata;
    VersionsMeanRows(a, b, environmentKey, configKey);
    var at := Locate(a, environmentKey, configKey).value;
    forall r | r in at.row.references ensures ValueOf(reader, m, a, at.environmentId, r)
        == ValueOf(reader, n, b, at.environmentId, r) {
      assert KeyOf(r) in ItemKeys(at.row.references);
      RowsMeanValues(reader, a, m, b, n, at.environmentId, r);
    }
    if ValuesReadable(reader, m, a, at.environmentId, at.row.references) {
      assert ValuesRead(reader, m, a, at.environmentId, at.row.references)
          == ValuesRead(reader, n, b, at.environmentId, at.row.references);
    }
  }

  /** Conditional reads are sound over whole runs: if a read returned some content with an ETag, and a
      later read that presents this ETag is answered "not modified", then a full read at that later
      moment, under the key its sentinel verifies, would return exactly that content, whatever commits,
      archivings and key rotations came in between. */
  lemma NotModifiedIsSound(codec: Codec, reader: Reader, states: seq<Db>, steps: seq<Step>, i: nat, j: nat, m: string,
                           n: string,
                           environmentKey: string, configKey: string, scope: Option<Scope>, other: Option<Scope>,
                           etag: string, content: string)
    requires IsRun(codec, states, steps) && DbWell(states[0]) && i <= j < |states|
    requires VerifySentinel(m, states[i].sentinel) && VerifySentinel(n, states[j].sentinel)
    requires Accepted(states[i], environmentKey, configKey, scope) && IsEtag(states[i], environmentKey, configKey, etag)
    requires FullContent(reader, m, states[i], environmentKey, configKey) == Some(content)
    requires Accepted(states[j], environmentKey, configKey, other) && IsEtag(states[j], environmentKey, configKey, etag)
    ensures FullContent(reader, n, states[j], environmentKey, configKey) == Some(content)
  {
    hide IsRun, DbWell, Extends, VerifySentinel, Accepted, IsEtag, FullContent, SameVersions;
    RunKeeps(codec, states, steps, i, j);
    EtagMeansVersions(states[i], environmentKey, scope, states[j], environmentKey, other, configKey, etag);
    SameVersionsSameContent(reader, states[i], m, states[j], n, environmentKey, configKey);
  }
}
