# Configra: verified models

Configra stores versioned JSON and YAML Configs per environment, resolves the Vault references in them
for machines, and keeps the Vault's secrets encrypted. These Dafny modules model its hardest logic and
prove what callers rely on.

- **Documents** (`Reference`, `Json`, `JsonDecoder`, `JsonDocument`, `JsonText`, `JsonUnquote`, `JsonPrinted`,
  `Merge`, `JsonMerge`, `JsonCodec`): parsing, exact size checks, canonical texts, deep merge and resolution.
- **YAML documents** (`YamlGraph`, `YamlOrder`, `YamlWalk`, `YamlDocument`, `YamlKeys`): the in-place walk over
  node graphs with shared and cyclic aliases, for validating and for resolving.
- **Encryption** (`Encoding`, `VaultCrypto`, `KeyRotation`, `KeyLock`): unambiguous additional data,
  envelope encryption, rotation of the master key, and writers and rotations running at the same time.
- **Store** (`ConfigStore`, `StoreTransactions`, `StoreInvariants`, `StoreSteps`, `CommitViews`, `StoreRuns`,
  `StoreGuarantees`, `StoredContents`, `ConfigTransfer`, `TransferTransactions`, `TransferRetries`, `CommitMeaning`,
  `ChangeMeaning`, `TransferMeaning`): the idempotent mutation protocol and its transfers. `ConfigStore` says what
  each committed transaction does, `StoreTransactions` and `TransferTransactions` run it statement by statement, and
  `CommitViews` lets a commit read an older view than the state it commits in. `CommitMeaning`, `ChangeMeaning` and
  `TransferMeaning` tell the same from the tables and the request alone: exact outcomes, warnings, stored rows,
  records and events. The rest proves what holds over all runs.
- **Reads** (`Etag`, `ConditionalRead`, `CommittedReads`, `StatementCache`): ETags, conditional reads over whole
  runs, what is read after a commit, and the cache of prepared statements.
- **Certificates** (`Authorities`, `AuthorityTransactions`, `Revocations`): `Authorities` lets transactions overlap,
  from their locks to their commits; `Revocations` says what a revocation reaches, and that it is final.
- **Vault snapshots** (`VaultDocument`, `VaultRules`, `VaultTexts`, `VaultRestores`): what is accepted, what its
  texts tell, what is read back, and what restoring it finds.
- **Examples** (`SmallRuns`, `ReadLimits`, `ViewRuns`): runs from an empty database that reach the findings below.

## Conventions

A Go string or byte slice is a `string` with one `char` per byte. Lists of environments and file bytes, whose
nil and empty forms JSON tells apart, are optional, and nil is `None`. Go maps are maps whose iteration order is
left open; every loop over one is proved for every order. Integers are unbounded, with the 32-bit length
prefix, the 64-bit revision limit and the truncation of certificate times to seconds written out. Clocks,
random bytes, identifiers and the outcome of a database commit are parameters or arbitrary values.
SHA-256 is taken as injective: a digest is the value it is taken of. AES-GCM is an ideal authenticated
cipher: a cipher text opens only under the key, nonce and additional data it was sealed with.

The store takes canonicalisation, merging, resolution and snapshot decoding as functions. Its invariants, its
retry and conditional-read guarantees and its histories hold for any such functions. Only the statements that
a stored document is canonical, and that a previewed, copied or cloned document arrives unchanged, need two
laws, of the one format at hand: canonicalisation is idempotent and a merge is canonical. `JsonCodec` proves
them for JSON over any lexer that reads a printed value as that value's tokens, and shows that such a lexer
exists. What `encoding/json` reads back from a snapshot payload is likewise a law on valid keys, for which
`VaultTexts.LawfulCoder` gives an instance; what it writes is defined byte by byte.

## Findings

- The deep merge is not associative in general; `Merge.MergeAssociative` gives the exact condition.
- The ETag omits the environment: `ReadLimits.EtagOmitsEnvironment` is a run that ends with two environments
  sharing an ETag over different contents. `ConditionalRead.EtagMeansVersions` says exactly when that happens;
  conditional reads are sound per environment.
- A commit does not warn about a reference to a file field, although no read ever finds a text there
  (`ReadLimits.FileFieldGap`, `ReadLimits.FileFieldRun`). Every warning it does give is true.
- A variant that is bound to no environment is digested with `null` if its list is nil and with `[]` if the list is
  empty. The web client sends an empty list, and reading an item back yields nil. So restoring the current revision
  of such an item adds a revision although nothing changes (`VaultRestores.UnboundRestoreChanges`), once
  (`VaultRestores.SecondRestoreFindsNoChange`). `VaultRestores.RestoreFindsNoChange` says exactly when a restore finds
  no change, `VaultTexts.NoChangeExactly` when any commit does. Nil and empty file bytes are told apart likewise
  (`VaultTexts.EmptyBytesToldApart`).
- `Encode` does not check that texts are well-formed UTF-8, and JSON spells every stray byte as U+FFFD. Two
  snapshots whose field names differ in stray bytes only have one structure digest, so a commit that renames
  one to the other finds no change (`VaultTexts.NamesCollide`). Such a value comes back changed, and one that grows
  beyond its limit is stored but can never be decoded (`VaultDocument.EncodedDecodes`,
  `VaultDocument.AcceptedButUnreadable`), which also blocks every later commit of that item, because the commit
  decodes the current revision first. The HTTP handlers decode JSON, whose strings come out well formed, so only
  another caller of the store can cause this.
- YAML mapping keys are compared by their original texts, because an alias stands after what it refers to. An
  alias that leads to a key still makes the walk rewrite the key in the output, where it can equal another
  key of its mapping (`YamlKeys.KeyBecomesDuplicate`). `YamlKeys.KeysKeptExactly` says when no key changes.
- A commit reads the environment, the current content and the Vault in the view its transaction opened, but
  locks and compares what is current. One that waited for another commit to the same Config and environment fails with a read
  error instead of a conflict (`ViewRuns.OvertakenRun` is such a run, `CommitViews.LateCommit` and
  `StoreGuarantees.CommitsExactly` have the condition); repeated, it finds the conflict
  (`StoreGuarantees.OvertakenConflicts`). It also still commits to an environment that was archived in between
  (`ViewRuns.ArchivedRun`).
- A length-prefixed field of 2^32 bytes or more would be ambiguous (`Encoding.LongFieldsCollide`); the
  identifiers written this way are far shorter.
- Certificate times are whole seconds, so a deadline within the first second of an authority's validity
  gives an empty certificate validity. `Authorities.ClientInsideAuthority` has the exact condition; authorities
  begin five minutes in the past, so no run reaches it.

## Model

| member | source | states |
|---|---|---|
| References.ParseExactly | internal/configdoc/resolve.go:277-297 | A scalar is looked up exactly when it prints a valid reference, unescaped exactly when it prints the escaped form, left alone exactly when it does not contain the opening marker, and refused otherwise |
| References.ParsePrinted | internal/configdoc/resolve.go:299-305 | Printing a reference, plain or brace-escaped, and parsing it gives it back |
| References.ParsedTexts | internal/configdoc/resolve.go:277-297 | Every text accepted as a reference is the printed form of a valid one |
| References.ResourceKeyExactly | internal/configdoc/resolve.go:307-320 | Resource keys are a lower-case letter and up to 62 letters, digits, underscores and hyphens |
| Json.CheckJsonBudget | internal/configdoc/canonical.go:119-171 | In every map iteration order the check subtracts exactly the length of the indented printed form, and fails exactly when that exceeds the budget |
| Json.QuoteLength | internal/configdoc/canonical.go:119-171 | A printed string is never shorter than its raw text plus quotes, so the early cut-off rejects nothing that fits |
| JsonUnquote.QuotedReadsBack | internal/configdoc/canonical.go:119-171 | A reader that knows only the escapes of JSON gets every printed string back with its stray bytes replaced, so unchanged exactly when it was well-formed UTF-8 |
| JsonUnquote.QuotedIsHarmless | internal/configdoc/canonical.go:107-117 | A printed string holds no control character and none of <, > and & |
| JsonUnquote.RuneExactly | internal/configdoc/canonical.go:119-171 | The encoder takes for well formed exactly the byte sequences that encode a code point other than a surrogate |
| Json.ObjectLength | internal/configdoc/canonical.go:119-171 | The printed length of an object is the sum over its members, whatever their order |
| Json.EncodeJson | internal/configdoc/canonical.go:107-117 | Encoding succeeds exactly when the text with its final newline fits in 5 MiB |
| JsonDecoder.Decoder.DecodeJsonValue | internal/configdoc/resolve.go:86-146 | The token loops accept, return and stop exactly as the recursive reader says |
| JsonDecoder.DecodeExactly | internal/configdoc/resolve.go:86-146 | A token sequence is read as a value exactly when it spells, in some member order and without repeated keys, a document for it that nests within 100 levels |
| JsonDecoder.DecodeFlatten | internal/configdoc/resolve.go:86-146 | Reading a written document succeeds exactly when its keys are unique and its nesting is within the limit, and then gives its value and leaves the rest |
| JsonDecoder.DecodeSound | internal/configdoc/resolve.go:86-146 | Whatever is accepted is the spelling of a well-formed document |
| JsonDecoder.CanonicalRoundTrip | internal/configdoc/resolve.go:86-146 | The reader inverts the canonical printer on exactly the values within the nesting limit |
| JsonDecoder.CanonicalIdempotent | internal/configdoc/canonical.go:40-62 | The canonical spelling of any accepted document is accepted and denotes the same value |
| JsonDocument.FindJsonReferences | internal/configdoc/canonical.go:64-88 | The traversal succeeds exactly when no string is a malformed reference, and adds exactly the references of the document |
| JsonDocument.CanonicalizeJson | internal/configdoc/canonical.go:40-62 | Accepts exactly one value within depth and size limits and without malformed references, and records exactly its references |
| JsonDocument.CanonicalizeIdempotent | internal/configdoc/canonical.go:40-62 | Canonicalising a canonical document gives the same value and references again |
| JsonDocument.SortedReferencesUnique | internal/configdoc/canonical.go:277-292 | The sorted list of references is determined by their set |
| JsonDocument.ResolveJsonValue | internal/configdoc/resolve.go:148-187 | The in-order rewriting under a decreasing budget succeeds exactly when every reference has a value and all values together fit, and rewrites every string once |
| JsonDocument.ResolveJson | internal/configdoc/resolve.go:62-84 | Resolution succeeds exactly when the document is resolvable and the result fits; the result has the same paths, and differs from the original only where that has a string that prints a reference, which gives way to its value, or an escaped one, which gives way to the reference |
| JsonDocument.AgreeingLookups | internal/configdoc/resolve.go:148-187 | Two lookups that agree on the recorded references give the same result |
| JsonDocument.AgreeingResolvable | internal/configdoc/resolve.go:33-60 | and succeed on the same documents |
| JsonDocument.RewriteAt | internal/configdoc/resolve.go:148-187 | Rewriting commutes with every path |
| JsonDocument.RewriteEverywhere | internal/configdoc/resolve.go:148-187 | At every path only a string that prints a reference or an escaped one changes, into the value or the reference; keys, lengths and all other scalars stay |
| JsonDocument.ReferencesPrinted | internal/configdoc/canonical.go:64-88 | The references of a document are exactly the valid ones that one of its strings prints |
| JsonDocument.ReadableExactly | internal/configdoc/canonical.go:64-88 | A document is refused exactly when one of its strings holds the opening marker and prints neither a reference nor an escaped one |
| JsonDocument.RewrittenOnce | internal/configdoc/resolve.go:148-187 | A substituted or unescaped text is not expanded again, even if it is spelled like a reference; the first is charged its length, the second nothing |
| JsonPrinted.CanonicalTextTells | internal/configdoc/canonical.go:107-117 | Equal canonical texts are texts of one value |
| Merge.MergeJsonValue | internal/configdoc/merge.go:66-80 | The loop over the source, in any order, computes the deep merge |
| Merge.SourceWins | internal/configdoc/merge.go:66-80 | The source wins at every path where it holds anything but a mapping |
| Merge.TargetSurvives | internal/configdoc/merge.go:66-80 | Target paths that the source does not touch survive |
| Merge.NothingElse | internal/configdoc/merge.go:66-80 | The merge contains nothing that neither side had |
| Merge.MergeIdempotent | internal/configdoc/merge.go:66-80 | Merging the same source twice changes nothing more |
| Merge.MergeAssociative | internal/configdoc/merge.go:66-80 | Merging is associative exactly when, wherever the outer two are both mappings at a path all three share, the middle one is a mapping too or the first already covers the last there |
| Merge.MergeNotAssociative | internal/configdoc/merge.go:66-80 | A concrete triple on which merging is not associative |
| Merge.MergeYamlNode | internal/configdoc/merge.go:82-101 | The loop with its index map computes the ordered merge: target order first, new keys in source order |
| Merge.MissingInOrder | internal/configdoc/merge.go:82-101 | The appended entries are the source entries with new keys, in source order |
| Merge.MergeYamlRefines | internal/configdoc/merge.go:82-101 | On trees with unique keys the ordered merge keeps keys unique and is, at every path, the plain merge |
| JsonMerge.MergeDocuments | internal/configdoc/merge.go:11-54 | Two accepted Configs merge exactly when the result fits in 5 MiB; the result is canonical and its references come from the two sides |
| JsonMerge.MergeOfCanonicalSource | internal/configdoc/merge.go:11-54 | Merging from the canonical source is merging from any of its spellings |
| JsonCodec.JsonIsLawful | internal/configdoc/canonical.go:40-62 | On texts, canonicalising twice is canonicalising once, and what a merge returns is canonical |
| JsonCodec.MergesExactly | internal/configdoc/merge.go:11-35 | On texts, a merge is returned exactly when both sides are accepted and the merged value fits, and is its canonical text |
| JsonCodec.LawfulLexer | internal/configdoc/canonical.go:40-62 | The laws assumed of the lexer can be met |
| YamlDocument.ResolveYaml | internal/configdoc/resolve.go:189-275 | On every finite node graph the walk terminates. On success every reachable string that prints a reference holds its value, every one that prints an escaped reference holds the reference, and nothing else has changed. In document order, which parsing produces, it succeeds exactly when no reachable node is on a cycle, mappings have distinct scalar keys by their original texts, no string is a misspelt reference, every reference has a value, and the values fit, those of a shared node counted once; every error has its cause |
| YamlDocument.ValidateYaml | internal/configdoc/canonical.go:223-275 | Validation succeeds exactly when no reachable node is on a cycle, mappings have distinct scalar keys and no string is a malformed reference; it changes nothing and collects exactly the references of the reachable strings |
| YamlDocument.ResolvableExactly | internal/configdoc/resolve.go:189-275 | The resolvable documents by how their texts are spelled: well formed, every reference valued, and the lengths of the values within the budget |
| YamlDocument.TextCauses | internal/configdoc/resolve.go:251-270 | The two errors about texts are reported for a misspelt reference and for one without a value |
| YamlGraph.ChargedForValue | internal/configdoc/resolve.go:33-60 | A node is charged the length of the value it looks up, and nothing if it looks up none |
| YamlGraph.ReferencesSpelled | internal/configdoc/canonical.go:223-275 | The references of a document are those that its reachable strings print |
| YamlDocument.ValidatedResolves | internal/configdoc/resolve.go:33-60 | A document resolves exactly when it validates, every reference recorded for it has a value and all values together fit |
| YamlDocument.AgreeingLookups | internal/configdoc/resolve.go:189-275 | Two lookups that agree on the recorded references succeed on the same YAML documents, give every node the same text and charge the same |
| YamlDocument.OwnTextsCompared | internal/configdoc/resolve.go:232-249 | In document order two keys clash exactly when their original texts are equal |
| YamlKeys.KeysKeptExactly | internal/configdoc/resolve.go:232-273 | All mappings keep their keys exactly when no alias leads to a key that resolution would rewrite |
| YamlKeys.KeyBecomesDuplicate | internal/configdoc/resolve.go:232-273 | For every reference there is a document, in document order, that resolves and whose two keys then show the same text |
| YamlWalk.Walk.ResolveNode | internal/configdoc/resolve.go:212-275 | One visit, resolving or validating, extends the finished nodes, keeps the path and the colours, visits in document order, and changes only finished nodes |
| YamlDocument.Complete | internal/configdoc/resolve.go:212-275 | When the root is finished, the finished nodes are exactly the reachable ones and none of them is on a cycle |
| YamlWalk.CycleFound | internal/configdoc/resolve.go:212-275 | Meeting a node that is being visited shows a real cycle |
| YamlDocument.CauseRefutes | internal/configdoc/resolve.go:212-275 | In document order every reported cause is one for which no walk could succeed; on other graphs when no key is rewritten |
| YamlWalk.OverBudget | internal/configdoc/resolve.go:33-60 | A lookup that does not fit shows that all lookups together do not fit |
| Encoding.AdditionalDataInjective | internal/vaultcrypto/crypto.go:253-279 | Different records, and a payload and a data key, never share additional data, and none shares the sentinel's |
| Encoding.PrefixedDecodes | internal/vaultcrypto/crypto.go:276-279 | A length-prefixed field under 2^32 bytes is read back unambiguously |
| Encoding.LongFieldsCollide | internal/vaultcrypto/crypto.go:276-279 | At 2^32 bytes the prefix wraps around and decoding is ambiguous |
| Etags.ResolvedConfigEtag | internal/storage/mysqlstore/machine.go:408-427 | Collecting keys in any order, sorting and feeding them to the hash writes the text of the sorted map |
| Etags.ConfigTextDetermines | internal/storage/mysqlstore/machine.go:408-427 | Equal ETags mean the same Config, revision and version of every item |
| Etags.ConfigTextUnique | internal/storage/mysqlstore/machine.go:408-427 | The ETag does not depend on map iteration order |
| Etags.FileTextDetermines | internal/storage/mysqlstore/machine.go:429-436 | A file ETag determines item, revision and field |
| Etags.FileNotConfig | internal/storage/mysqlstore/machine.go:408-436 | A file ETag is never a Config ETag |
| VaultCrypto.EncryptDecrypts | internal/vaultcrypto/crypto.go:67-137 | Whatever is encrypted for a valid identity decrypts under the same key and identity, and invalid identities are refused |
| VaultCrypto.EncryptsExactly | internal/vaultcrypto/crypto.go:67-114 | Encryption succeeds exactly for items with an ID and a revision and for secrets with an ID of 1 to 255 bytes, and seals payload and data key for that identity, purpose, algorithm and key version |
| VaultCrypto.DecryptsExactly | internal/vaultcrypto/crypto.go:116-169 | Exactly what is sealed like that decrypts, to what was sealed |
| VaultCrypto.DecryptsOnce | internal/vaultcrypto/crypto.go:116-169 | A record opens under one key and for one identity only |
| VaultCrypto.SplicedKeyFails | internal/vaultcrypto/crypto.go:130-169 | One record's wrapped key next to another's payload never decrypts |
| VaultCrypto.KeyIsNoPayload | internal/vaultcrypto/crypto.go:171-177 | A wrapped data key is never accepted as a payload |
| VaultCrypto.RewrapPreserves | internal/vaultcrypto/crypto.go:196-212 | Rewrapping succeeds exactly on records that decrypt, and moves them to the next key, and no other, with the same plain text |
| VaultCrypto.SentinelIdentifiesKey | internal/vaultcrypto/crypto.go:216-244 | A sentinel verifies exactly the key that made it |
| KeyRotation.RewrapTable | internal/storage/mysqlstore/key_rotation.go:105-169 | The cursor passes every row exactly once although rows change under it; it fails exactly when some row does not open; the count is the number of rows |
| KeyRotation.PassedOneMore | internal/storage/mysqlstore/key_rotation.go:136-166 | Moving the cursor to the selected row passes that row and no other |
| KeyRotation.Store.VerifyTable | internal/storage/mysqlstore/verification.go:78-134 | Counts the rows exactly when all of them open and decode |
| KeyRotation.Store.VerifyEncryptedState | internal/storage/mysqlstore/verification.go:49-76 | Reports the table sizes exactly when the sentinel verifies and every record opens and decodes |
| KeyRotation.Store.RotateMasterKey | internal/storage/mysqlstore/key_rotation.go:22-103 | Succeeds exactly when it may, the schema version and the six transactional tables included; then every record opens under the new key to the same plain text with nothing else changed, with one operation and one audit event; a failure before commit changes nothing; an unknown commit outcome leaves the old or the rotated state |
| KeyRotation.RotationHandsOver | internal/storage/mysqlstore/key_rotation.go:22-103 | After a rotation the database is consistent under the new key and under no other |
| KeyRotation.IdentityInjective | internal/storage/mysqlstore/key_rotation.go:139-147 | No two rows of the three tables are sealed for the same identity |
| KeyRotation.RowsNotInterchangeable | internal/storage/mysqlstore/key_rotation.go:139-147 | A sealed record opens in one row and under one key only |
| KeyLock.AlwaysOneKey | internal/storage/mysqlstore/bootstrap.go:230-240 | In every interleaving of writers and rotations, all committed records open under the one key the sentinel verifies |
| KeyLock.CommitsAreCurrent | internal/storage/mysqlstore/bootstrap.go:228-240 | Whoever commits still holds the current key; a writer with the old key cannot commit after a rotation |
| KeyLock.LockPinsSentinel | internal/storage/mysqlstore/bootstrap.go:228-240 | While a transaction holds the lock the sentinel does not change |
| KeyLock.PlainTextPreserved | internal/storage/mysqlstore/bootstrap.go:228-240 | Only a writer that wrote a record changes what it shows; rotations never do |
| KeyLock.CurrentKeyHolds | internal/storage/mysqlstore/bootstrap.go:228-240 | Whoever is granted the lock holds it exactly when its key is the current one |
| KeyLock.WriterProceeds | internal/storage/mysqlstore/bootstrap.go:228-240 | A holding writer can insert exactly what has a valid identity, and commit at any time |
| KeyLock.RotationProceeds | internal/storage/mysqlstore/key_rotation.go:22-103 | A holding rotation can rewrap every record that is left, and commit when none is |
| KeyLock.InitialInvariant | internal/storage/mysqlstore/bootstrap.go:193-217 | A freshly initialised database satisfies the invariant |
| StoreTransactions.Store.CommitConfig | internal/storage/mysqlstore/config_mutation.go:83-239 | The transaction, statement by statement with nothing happening in between, has exactly the effect and reply of the commit step, and a fresh one answers, stores, records and announces what `CommitMeaning.CommitMeans` says |
| StoreTransactions.Store.CompareAndWrite | internal/storage/mysqlstore/config_mutation.go:178-238 | The part from the locked current revision on; a reply that is no failure carries exactly the warnings about the references of the document |
| StoreTransactions.Store.WriteNext | internal/storage/mysqlstore/config_mutation.go:198-238 | The inserts of a success: revision, references, state, operation and events |
| StoreTransactions.Store.BeginOperation | internal/storage/mysqlstore/config_mutation.go:273-315 | Inserts a pending row, or classifies the existing one as replay, reuse or incomplete |
| StoreTransactions.Store.FinishOperation | internal/storage/mysqlstore/config_mutation.go:477-573 | Completes the operation and writes its audit event and, when asked, its notification |
| StoreTransactions.Store.FinishConfigOperation | internal/storage/mysqlstore/config_mutation.go:435-451 | Completes a Config operation under its action, environment and key |
| StoreTransactions.Store.FinishConfigFailure | internal/storage/mysqlstore/config_mutation.go:412-433 | Records the failure and changes nothing else |
| StoreTransactions.Store.FindWarnings | internal/storage/mysqlstore/config_mutation.go:362-410 | The loop over the references yields one warning per reference whose item, field or variant for this environment is missing or archived, in order, with the code of what is missing |
| StoreTransactions.Store.RejectConfigTransfer | internal/storage/mysqlstore/config_transfer.go:296-317 | Records a refused transfer, or replays it |
| StoreTransactions.Store.ApplyConfigLifecycleChange | internal/storage/mysqlstore/config_lifecycle.go:32-89 | Archives or unarchives a Config exactly as the lifecycle step says; a fresh change answers and leaves what `ChangeMeaning.LifecycleMeans` says |
| StoreTransactions.Store.ApplyEnvironmentChange | internal/storage/mysqlstore/environment_mutation.go:112-209 | Creates, renames, archives or unarchives an environment exactly as the environment step says; a fresh change answers and leaves what `ChangeMeaning.EnvironmentMeans` says |
| StoreTransactions.Store.SwitchEnvironment | internal/storage/mysqlstore/environment_mutation.go:142-199 | The switch on the action |
| StoreInvariants.FinishKeepsOutbox | internal/storage/mysqlstore/config_mutation.go:477-573 | Each operation keeps exactly one audit event, a notification exactly on success, both telling the recorded outcome, actor and revision, and no rejected key in any event |
| StoreInvariants.WriteKeeps | internal/storage/mysqlstore/config_mutation.go:198-238 | Writing the next revision keeps histories contiguous, neighbours different and every revision traced to one operation |
| StoreSteps.CompareAdvances | internal/storage/mysqlstore/config_mutation.go:178-198 | The compare-and-swap lets through only requests for the revision after the current one, with a different document |
| StoreSteps.RejectionsClassified | internal/storage/mysqlstore/config_failure.go:21-28 | Every rejection's reason has the error class of its recorded outcome |
| StoreSteps.CommitKeeps | internal/storage/mysqlstore/config_mutation.go:83-239 | A commit keeps every invariant of the store |
| StoreSteps.RejectTransferKeeps | internal/storage/mysqlstore/config_transfer.go:296-317 | So does a refused transfer |
| StoreSteps.LifecycleKeeps | internal/storage/mysqlstore/config_lifecycle.go:32-89 | So does archiving or unarchiving a Config |
| StoreSteps.EnvironmentKeeps | internal/storage/mysqlstore/environment_mutation.go:112-209 | So does every environment change |
| CommitViews.LateCommit | internal/storage/mysqlstore/config_mutation.go:83-239 | A commit with an older view fails, without effect, exactly when the current revision of its Config was committed after the view was opened; otherwise it is the commit on the current database with the environment and the Vault as the view shows them |
| CommitViews.CommitAtKeeps | internal/storage/mysqlstore/config_mutation.go:83-239 | A commit keeps every invariant of the store whatever earlier view it reads |
| StoreRuns.StepKeeps | internal/storage/mysqlstore/config_mutation.go:83-239 | Every step, commits with older views, Vault commits and key rotations included, keeps the invariants and only adds to what is recorded |
| StoreRuns.RunKeeps | internal/storage/mysqlstore/config_mutation.go:83-239 | In every reachable state, whatever the document engine does, the invariants hold and everything recorded earlier is still there, unaltered |
| StoreRuns.EmptyDatabase | internal/storage/mysqlstore/bootstrap.go:193-217 | A freshly initialised database satisfies the invariants |
| StoredContents.CommitCanonical | internal/storage/mysqlstore/config_mutation.go:83-239 | A commit keeps all stored documents of a lawful format canonical |
| StoredContents.RunKeepsCanonical | internal/storage/mysqlstore/config_mutation.go:83-239 | In every reachable state all stored documents of a lawful format are canonical |
| StoreGuarantees.CommitRetry | internal/storage/mysqlstore/config_mutation.go:273-315 | Repeating a commit at any later time, at whatever view, returns the first reply and changes nothing |
| StoreGuarantees.LifecycleRetry | internal/storage/mysqlstore/config_lifecycle.go:32-89 | The same for archiving and unarchiving |
| StoreGuarantees.EnvironmentRetry | internal/storage/mysqlstore/environment_mutation.go:112-209 | The same for environment changes |
| StoreGuarantees.ReuseRefused | internal/storage/mysqlstore/config_mutation.go:273-315 | A different commit under a used OperationID is refused, unchanged, in all later states |
| StoreGuarantees.LifecycleReuseRefused | internal/storage/mysqlstore/config_lifecycle.go:32-89 | So is a lifecycle change |
| StoreGuarantees.EnvironmentReuseRefused | internal/storage/mysqlstore/environment_mutation.go:112-209 | So is an environment change |
| StoreGuarantees.NeverIncomplete | internal/storage/mysqlstore/config_mutation.go:273-315 | No reachable operation is pending or corrupt: commits, refused transfers, lifecycle and environment changes all get whole replies of their own kind |
| StoreGuarantees.LifecycleEffect | internal/storage/mysqlstore/config_lifecycle.go:32-89 | Only the archive flag of the named Config may change, to what was asked, and it changes exactly on success |
| StoreGuarantees.EnvironmentEffect | internal/storage/mysqlstore/environment_mutation.go:112-209 | Only the named environment may change or be added, as asked and keeping its identity, and it changes exactly on success |
| StoreGuarantees.CommitsExactly | internal/storage/mysqlstore/config_mutation.go:83-239 | A fresh commit fails unrecorded exactly when it was overtaken; otherwise it succeeds, or finds nothing to change, exactly when document, environment as its view shows it and Config are usable and it expected the current revision; nothing changes exactly when it also repeats the current document |
| StoreGuarantees.OvertakenConflicts | internal/storage/mysqlstore/config_mutation.go:330-360 | An overtaken commit that expected what its view showed finds the conflict when it is repeated, while its environment is active |
| CommitMeaning.CommitMeans | internal/storage/mysqlstore/config_mutation.go:83-239 | A fresh commit, whatever view it reads, answers the next revision, or the current one when nothing changes, with exactly the warnings of its canonical document in the Vault as the view shows it, or a failure that is there; stores the canonical document with its references, actor and source on success and nothing otherwise; and is recorded and announced like that |
| CommitMeaning.WarningsTell | internal/storage/mysqlstore/config_mutation.go:362-410 | The warnings are about exactly the references that are not usable, in their order, each with the code of what is missing: item, field or variant |
| CommitMeaning.CommitSettles | internal/storage/mysqlstore/config_mutation.go:83-239 | An acceptable commit into an active environment conflicts exactly when what it expects is not so, finds no change exactly when its document is current, and else its document is current afterwards |
| CommitMeaning.FinishTold | internal/storage/mysqlstore/config_mutation.go:477-573 | A finished operation is on record with its response, with one audit event and perhaps a notification, each naming actor, action, outcome, environment and resource, and a revision only on success; rejected keys are left out |
| CommitMeaning.RefusalMeans | internal/storage/mysqlstore/config_transfer.go:296-317 | A fresh refusal of a transfer is recorded and announced and changes nothing else |
| CommitMeaning.AcceptsExactly | internal/storage/mysqlstore/config_mutation.go:241-252 | A commit is accepted exactly with resource keys, a name of 1 to 255 bytes and a document that canonicalises |
| CommitMeaning.IdentityExactly | internal/storage/mysqlstore/config_mutation.go:615-632 | OperationIDs are 8 to 128 letters, digits, hyphens and underscores; actors are users or the system |
| ChangeMeaning.LifecycleMeans | internal/storage/mysqlstore/config_lifecycle.go:32-89 | A fresh lifecycle change succeeds exactly when it names a Config that is not yet as asked, finds no change exactly when it is, and is refused otherwise; what it changes, records and announces is exact |
| ChangeMeaning.EnvironmentMeans | internal/storage/mysqlstore/environment_mutation.go:112-209 | A fresh environment change succeeds exactly when the environment can be as asked and is not yet so, finds no change exactly when it is, conflicts exactly when it creates one that exists, and is refused otherwise; what it changes, records and announces is exact |
| ViewRuns.OvertakenRun | internal/storage/mysqlstore/config_mutation.go:330-360 | A run from the empty database in which a commit that waited fails with a read error and leaves no trace, where a prompt one would have conflicted |
| ViewRuns.ArchivedRun | internal/storage/mysqlstore/config_mutation.go:134-147 | A run from the empty database in which a commit succeeds in an environment archived after its view was opened, where a prompt one would have been refused |
| StoreGuarantees.CommitEffect | internal/storage/mysqlstore/config_mutation.go:83-239 | A fresh success adds exactly one revision, the expected one plus one; every other outcome, replay or failure leaves histories untouched, whatever view the commit reads |
| TransferTransactions.TransferConfig | internal/storage/mysqlstore/config_transfer.go:129-214 | The method's reads, checks and rejections amount to preparing a commit and carrying it out; a fresh transfer of an acceptable document conflicts exactly when the revision it expects is not current and otherwise puts the document there, and one that is not feasible is refused |
| TransferTransactions.TransferFrom | internal/storage/mysqlstore/config_transfer.go:175-213 | Its second half, from the source on |
| TransferTransactions.RestoreConfig | internal/storage/mysqlstore/config_transfer.go:63-75 | A restore is a transfer of an earlier revision of the same Config; a fresh one answers and leaves what `TransferMeaning.RestoreMeans` says |
| TransferTransactions.CloneConfig | internal/storage/mysqlstore/config_transfer.go:77-127 | A clone reads an active source, current or pinned, and commits it as a create-only copy; a fresh one answers and leaves what `TransferMeaning.CloneMeans` says, and is refused exactly when its source is not available |
| Transfers.PreparedTransferIsStep | internal/storage/mysqlstore/config_transfer.go:129-214 | Whatever moments a transfer reads at, what it prepared is an enabled commit or refusal step, one of those that `StoreRuns.StepKeeps` is about |
| Transfers.PreparedCloneIsStep | internal/storage/mysqlstore/config_transfer.go:77-127 | The same for clones |
| Transfers.PinnedRevision | internal/storage/mysqlstore/config_transfer.go:224-247 | A pinned revision reads the same at every moment of a run that has it |
| Transfers.PreviewIsCommitted | internal/management/http.go:573-632 | If a previewed transfer of pinned revisions later succeeds or reports no change, whatever ran in between and whatever view its commit reads, the target's current document is the previewed one |
| Transfers.SourceIsCommitted | internal/storage/mysqlstore/config_transfer.go:129-214 | Replace and restore put the pinned source document in place unchanged |
| Transfers.CloneIsCommitted | internal/storage/mysqlstore/config_transfer.go:77-127 | A successful clone puts the source document in place unchanged, and only where there was no Config |
| Transfers.TransferReadyExactly | internal/storage/mysqlstore/config_transfer.go:129-214 | A fresh transfer goes on to its commit exactly when keys and revisions are given, source and target exist and are active, and a merge of them is possible |
| TransferMeaning.TransferMeans | internal/storage/mysqlstore/config_transfer.go:129-214 | A fresh transfer of an acceptable document conflicts exactly when the revision it expects is not the current one; otherwise it finds the document there, or the next revision holds it, with the name and source of what was transferred, exact warnings, and its own record and event |
| TransferMeaning.InfeasibleRefused | internal/storage/mysqlstore/config_transfer.go:129-214 | Any fresh transfer whose keys or revisions are not given, whose source or target is not available, or that cannot be merged is refused, recorded and changes nothing |
| TransferMeaning.RestoreMeans | internal/storage/mysqlstore/config_transfer.go:63-75 | A fresh restore succeeds, or finds the revision current already, exactly when the revision it expects is the current one; an earlier one is a conflict, any other is refused; afterwards the document of the restored revision is current |
| TransferMeaning.CloneReadyExactly | internal/storage/mysqlstore/config_transfer.go:77-127 | A fresh clone goes on to its commit exactly when its keys are given and its source, the revision asked for or the current one, is available; archived sources are refused |
| TransferMeaning.CloneMeans | internal/storage/mysqlstore/config_transfer.go:77-127 | A fresh clone conflicts exactly where there is a Config already; else the source document becomes its first revision, under the name asked for or that of the source, with its source recorded |
| TransferMeaning.PreviewMeans | internal/management/http.go:573-632 | A preview shows the document the transfer would commit, exactly when the pinned revisions are there, the target is available, and the source is readable and, if asked for, mergeable |
| TransferRetries.TransferRetry | internal/storage/mysqlstore/config_transfer.go:129-214 | Once a transfer has got a reply, refusals included, its repetition at any later moments of the run gets the same reply and goes no further, whatever happened to source and target |
| TransferRetries.TransferReuseRefused | internal/storage/mysqlstore/config_failure.go:44-59 | A transfer under an OperationID recorded for anything else is refused and changes nothing |
| TransferRetries.CloneRetry | internal/storage/mysqlstore/config_transfer.go:77-127 | Once a clone has got a reply its repetition gets the same reply |
| TransferRetries.CloneReuseRefused | internal/storage/mysqlstore/config_transfer.go:77-127 | A clone under an OperationID recorded for anything else is refused and changes nothing |
| ConditionalRead.ReadResolvedConfig | internal/storage/mysqlstore/machine.go:76-168 | Not found exactly when environment or Config is missing, archived or without a current revision; forbidden exactly when the scope leaves out the Config or a namespace referred to; not modified exactly when all checks pass and the presented tag tells the current revisions of the Config and of every item; otherwise the current document with what each reference stands for, exactly when there is one |
| ConditionalRead.LocateExactly | internal/storage/mysqlstore/machine_statements.go:50-63 | What is located is the current revision of an active Config in an active environment |
| ConditionalRead.ValueExactly | internal/storage/mysqlstore/machine.go:294-406 | A reference stands for a value exactly when the payload of its item's current revision opens and holds it as an unarchived text or secret in the variant for the environment |
| ConditionalRead.ContentExactly | internal/storage/mysqlstore/machine.go:76-168 | The content is the current document resolved with what each of its references stands for, and nothing else |
| CommittedReads.CommittedIsCurrent | internal/storage/mysqlstore/config_mutation.go:178-238 | In every run, as long as the revision a commit added is current, it holds the committed document, references, actor and source |
| CommittedReads.CommittedIsRead | internal/storage/mysqlstore/machine.go:76-168 | and whatever a read answers with content then, whoever reads under whatever key, is the committed document with what its references stand for at that moment |
| ConditionalRead.ReadReferences | internal/storage/mysqlstore/machine.go:250-275 | Groups the recorded references by item, losing and adding none |
| ConditionalRead.ReadVaultMetadata | internal/storage/mysqlstore/machine.go:277-292 | In any order, succeeds exactly when every item is readable for this environment |
| ConditionalRead.ReadVaultTextValues | internal/storage/mysqlstore/machine.go:314-344 | Returns exactly the text or secret values asked for, or fails exactly when one is not there |
| ConditionalRead.EtagMeansVersions | internal/storage/mysqlstore/machine.go:408-427 | Two reads of a Config, at any moments and in the same or different environments, share an ETag exactly when they share the revision and every item's version |
| ConditionalRead.SameVersionsSameContent | internal/storage/mysqlstore/machine.go:76-168 | The same versions give the same resolved content, under whatever keys the two sentinels verify |
| ConditionalRead.NotModifiedIsSound | internal/storage/mysqlstore/machine.go:76-168 | If a read returned content with an ETag and any later read presenting it is answered not modified, a full read at that moment would return exactly that content, across commits, archivings and rotations |
| ReadLimits.EtagOmitsEnvironment | internal/storage/mysqlstore/machine.go:408-427 | A run from the empty database after which two environments serve different contents of one Config under one ETag |
| ReadLimits.WarningsExactly | internal/storage/mysqlstore/config_mutation.go:362-410 | A commit warns about exactly the references whose item, variant for this environment or field is missing or archived |
| ReadLimits.WarningsAndValues | internal/storage/mysqlstore/machine.go:294-344 | A reference has a value exactly when no warning would be given about it and its field is a text or secret with a text in the opened snapshot |
| ReadLimits.WarnedIsUnreadable | internal/storage/mysqlstore/config_mutation.go:362-410 | A reference that is warned about has no value for any reader |
| ReadLimits.FileFieldGap | internal/storage/mysqlstore/config_mutation.go:362-410 | A reference to a file field gives no warning and never has a value |
| ReadLimits.FileFieldRun | internal/storage/mysqlstore/config_mutation.go:362-410 | A run of two steps from the empty database reaches such a reference |
| StatementCache.RunKeeps | internal/storage/mysqlstore/machine_statements.go:105-151 | In every interleaving each prepared statement has exactly one owner |
| StatementCache.LookupsAgree | internal/storage/mysqlstore/machine_statements.go:105-136 | All lookups of a query that ever succeed return the same statement, open as long as no close has begun |
| StatementCache.InstalledOnce | internal/storage/mysqlstore/machine_statements.go:105-136 | At most one statement per query is ever installed |
| StatementCache.NoneAfterClose | internal/storage/mysqlstore/machine_statements.go:105-136 | No lookup that starts after a close has begun succeeds |
| StatementCache.EverythingClosedOnce | internal/storage/mysqlstore/machine_statements.go:138-151 | No statement is closed twice, and once all calls have ended after a close every statement ever prepared has been closed exactly once |
| StatementCache.FailsForAReason | internal/storage/mysqlstore/machine_statements.go:105-136 | A lookup fails only when the cache has been closed or its own preparation has failed |
| StatementCache.OpenLookup | internal/storage/mysqlstore/machine_statements.go:105-136 | In an open cache a lookup returns what is cached, or caches and returns what it has prepared |
| StatementCache.NeverStuck | internal/storage/mysqlstore/machine_statements.go:105-151 | In every reachable state a call that has not ended can go on, whatever the others do |
| StatementCache.StepsRunOut | internal/storage/mysqlstore/machine_statements.go:105-151 | Every step brings its call nearer to its end and moves no other call |
| Authorities.ClientInsideAuthority | internal/clientcert/issuer.go:63-94 | A generated certificate lies inside its authority and deadline; its validity is non-empty exactly when the deadline falls in a later second than the authority's beginning |
| Authorities.AuthorityBounds | internal/clientcert/issuer.go:26-49 | An authority is generated exactly for 0 to 3650 days, 0 meaning five years, and begins five minutes back |
| Revocations.ClientExactly | internal/clientcert/issuer.go:63-94 | A certificate is generated exactly for a deadline ahead within a year under an authority valid now; it begins five minutes back and ends with its deadline, both inside the authority and cut to whole seconds |
| Revocations.AuthorityExactly | internal/clientcert/issuer.go:26-49 | An authority lasts as many days as asked for, or five years, to the second |
| Authorities.ManagedCertificateIssuer | internal/storage/mysqlstore/authority.go:326-363 | The loop finds the last authority, by identifier, whose signature fits, or none when none fits |
| Authorities.KeepsLimit | internal/storage/mysqlstore/authority.go:128-196 | Unrevoked unexpired authorities never exceed 32, with creations overlapping anything else |
| Authorities.KeepsCertificates | internal/storage/mysqlstore/authority.go:242-302 | No unrevoked certificate belongs to a revoked authority, and generated certificates are valid, for some time, inside their authority |
| Authorities.IssuedWell | internal/storage/mysqlstore/authority.go:392-448 | A certificate just issued lies inside its authority and deadline |
| Authorities.KeepsTokens | internal/storage/mysqlstore/deployment_credential.go:33-170 | A deployment token outlives neither its writer nor its certificate, and is revoked, with its certificate, when its writer is |
| AuthorityTransactions.Tables.RevokeCertificateAuthority | internal/storage/mysqlstore/authority.go:242-302 | Revokes an unrevoked authority and exactly its certificates, row by row, as the locking and committing steps do; otherwise nothing changes |
| AuthorityTransactions.Tables.IssueClientCertificate | internal/storage/mysqlstore/authority.go:392-448 | Issues exactly under a known, unrevoked authority and an acceptable deadline, adding one certificate, as the issuing steps do |
| AuthorityTransactions.Tables.IssueDeploymentCredential | internal/storage/mysqlstore/deployment_credential.go:33-94 | Issues exactly for a live writer whose expiry bounds the deadline, and gives the token the earlier of deadline and certificate end |
| AuthorityTransactions.Tables.RegisterVerifiedClientCertificate | internal/storage/mysqlstore/certificate_mutation.go:40-128 | Registers or renames exactly when neither the issuer nor the certificate is revoked, attributing the certificate to its managed issuer |
| AuthorityTransactions.Tables.RevokeToken | internal/storage/mysqlstore/deployment_credential.go:103-170 | Revokes exactly an unrevoked token, the tokens it has made and the certificates of these; otherwise nothing changes |
| AuthorityTransactions.Tables.RevokeDeployedCertificates | internal/storage/mysqlstore/deployment_credential.go:158-170 | The joined update, token by token, revokes exactly the certificates of the token and of the tokens it has made |
| AuthorityTransactions.Tables.RevokeFamily | internal/storage/mysqlstore/deployment_credential.go:158-170 | The other update revokes exactly the token and the tokens it has made |
| Revocations.RevokedForGood | internal/storage/mysqlstore/deployment_credential.go:103-170 | After a token has been revoked, in every later state of every interleaving it, the tokens it had made and their certificates are revoked, and none of these tokens issues anything |
| Revocations.AuthorityRevokedForGood | internal/storage/mysqlstore/authority.go:242-302 | After an authority has been revoked, in every later state it and all its certificates are revoked and nothing is issued under it |
| Authorities.RunKeeps | internal/storage/mysqlstore/authority.go:128-448 | All of this holds in every interleaving of overlapping transactions |
| Authorities.RevocationsAreFinal | internal/storage/mysqlstore/certificate_mutation.go:40-190 | No revocation is undone and no row is lost; a revoked certificate cannot be registered again |
| VaultDocument.Encode | internal/vaultdoc/snapshot.go:69-159 | Accepts exactly the snapshots with unique valid fields, one well-typed value per field and variant, at most one variant per environment and a payload within 10 MiB |
| VaultDocument.Decode | internal/vaultdoc/snapshot.go:161-194 | Accepts exactly the decodable payloads within 10 MiB, in whatever order the maps are walked |
| VaultDocument.EncodedDecodes | internal/vaultdoc/snapshot.go:69-194 | What Encode returned decodes exactly when every text and file name is still short enough with its stray bytes replaced, to the payload with those replaced; to the same payload exactly when all are well-formed UTF-8 |
| VaultDocument.CoercedDecodable | internal/vaultdoc/snapshot.go:196-217 | A value that Encode accepts is still accepted by Decode exactly when it stays short enough |
| VaultDocument.IllFormedTextChanges | internal/vaultdoc/snapshot.go:69-194 | A one-byte text that Encode accepts and that comes back different |
| VaultDocument.AcceptedButUnreadable | internal/vaultdoc/snapshot.go:69-217 | A snapshot that Encode accepts and that Decode refuses ever after |
| VaultTexts.StructureExactly | internal/vaultdoc/snapshot.go:133-158 | The structure digests of two accepted snapshots are the same exactly when they have the same fields, variants and bindings, in any order, up to the stray bytes in field names, and the same variants have a nil list of environments |
| VaultTexts.StructureOfNames | internal/vaultdoc/snapshot.go:133-158 | When the field names of one are well-formed UTF-8, exactly when they have the same fields, variants and bindings and the same nil lists |
| VaultTexts.NamesCollide | internal/vaultdoc/snapshot.go:133-158 | Two accepted snapshots with different field names and one structure digest |
| VaultTexts.PayloadExactly | internal/vaultdoc/snapshot.go:133-147 | Two payloads have one text exactly when they differ in stray bytes at most; nil bytes differ from empty ones |
| VaultTexts.WrittenAlike | internal/storage/mysqlstore/vault_mutation.go:181-193 | Structure digests and payload texts of two accepted snapshots are both the same exactly when fields, variants, bindings and values are, up to stray bytes, and nil lists and bytes are in the same places |
| VaultTexts.NoChangeExactly | internal/storage/mysqlstore/vault_mutation.go:181-193 | When the texts of one are well-formed UTF-8, a commit's comparison finds no change exactly when fields, variants, bindings and values are the same and so are the nil lists and bytes |
| VaultTexts.BoundListsSame | internal/vaultdoc/snapshot.go:100-114 | Of two variants bound to the same environments, only unbound ones can differ in having a nil list |
| VaultTexts.EmptyListToldApart | internal/vaultdoc/snapshot.go:133-158 | A nil and an empty list of environments: the same snapshot and two structure digests |
| VaultTexts.EmptyBytesToldApart | internal/vaultdoc/snapshot.go:133-147 | Nil and empty file bytes: two payload texts |
| VaultRestores.RebuiltAccepted | internal/storage/mysqlstore/vault_read.go:290-412 | What is rebuilt from a decodable revision is accepted again |
| VaultRestores.RestoreFindsNoChange | internal/storage/mysqlstore/vault_mutation.go:267-300 | Restoring the current revision finds no change exactly when all its texts are well-formed UTF-8 and no variant was committed with an empty list |
| VaultRestores.SecondRestoreFindsNoChange | internal/storage/mysqlstore/vault_mutation.go:267-300 | Restoring what a restore committed finds no change |
| VaultRestores.UnboundRestoreChanges | internal/storage/mysqlstore/vault_mutation.go:267-300 | An unbound variant committed with an empty list: the restore finds a change |
| VaultTexts.LawfulCoder | internal/vaultdoc/snapshot.go:69-194 | The laws assumed of reading a payload back can be met |
| VaultDocument.CheckEnvironments | internal/vaultdoc/snapshot.go:100-114 | Adjacent comparison and the map of bound environments find every repetition |
| VaultDocument.CheckValues | internal/vaultdoc/snapshot.go:115-130 | A size check and two loops amount to exactly one well-typed value for every field |
| VaultRules.AcceptableExactly | internal/vaultdoc/snapshot.go:69-159 | The accepted snapshots written out: fields with resource keys, names and known types and different keys; variants with different IDs, environments listed once in one of them, and one well-typed value for every field and for nothing else |
| VaultRules.DecodableExactly | internal/vaultdoc/snapshot.go:161-194 | Decode takes exactly what is well typed as a text or as a file |
| VaultRules.VariantIdExactly | internal/vaultdoc/snapshot.go:223-229 | Variant IDs are 32 lower-case hexadecimal digits |

## Left out

- Lexing of JSON and YAML: documents are token sequences or node graphs, and what the JSON lexer yields is a law (`JsonCodec.LexerLaws`). Printing JSON, with its escapes, is modelled byte by byte. The size check on raw input text is not modelled.
- Printing of YAML, so canonical YAML texts: the two document laws are proved for JSON only, and previews, copies and clones of YAML Configs are exact provided the laws hold there.
- Merge.MergeYamlNode: works on values, so it does not capture that the target's nodes are reused and aliased by the merged document.
- The checks on a missing lookup function and on unknown formats in `Resolve`.
- StoreTransactions.Store.CommitConfig: runs with nothing happening in between; reading an older view is `CommitViews` and the commit step of `StoreRuns`. Lifecycle, environment and refusal transactions take effect in one step, without a view, and gap locks and deadlocks are not modelled.
- StoreRuns.StepKeeps: a Vault commit is a generic step that adds one sealed revision and advances its item; its validation, its operation row and its events are not modelled, and a rotation's operation row and audit event are modelled in KeyRotation only.
- Scoped API tokens as actors of Config commits, release sets, and the outbox claim and delivery workers; the outbox is the history of inserted events, without pruning of delivered ones.
- StoreGuarantees.CommitRetry: digests are the requests themselves, so two requests that JSON encodes alike because of ill-formed UTF-8 are told apart here.
- StoreGuarantees.LifecycleRetry: replies are values, so ill-formed UTF-8 in a key, which the recorded reply gives back as U+FFFD, is not seen to differ from the first reply.
- StoreGuarantees.EnvironmentRetry: likewise for the key and the display name.
- Notification targets, source addresses and times in event payloads.
- Database errors other than a violated primary key and a current revision that a view does not show, deadlock retries, timeouts and cancellation.
- ConditionalRead.ReadResolvedConfig: when several items are unusable for different reasons, which error is reported is left open, as the map order leaves it open; `ReadFile` is modelled only by its ETag. The list of item revisions in the reply is not modelled.
- Authorities.RunKeeps: a transaction locks when it begins and writes when it commits; operation rows, display-name checks, X.509 parsing, signatures and key material are not modelled, and a signature fit is a given set of authorities.
- HTTP routing, the command line, messaging, analytics, single sign-on, the web interface, inventory pages and revision pages: plumbing, or easier copies of the cursor proof.
