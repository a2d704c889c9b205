/** Writers of encrypted records and key rotations running at the same time. Each takes the sentinel
    row's lock first, writers shared or exclusive, rotations exclusive, checks the sentinel against
    its own key, and keeps the lock until its transaction ends. Models lockMasterKey of
    internal/storage/mysqlstore/bootstrap.go together with its callers. */
module KeyLock {
  import opened Encoding
  import opened VaultCrypto
  import opened KeyRotation

  datatype Slot = Slot(table: Table, key: RowKey)

  type Records = map<Slot, Row>

  datatype Intent = Write(exclusive: bool) | Rotate(next: string)

  /** A transaction: waiting for the lock, or holding it with changes nobody else sees yet. */
  datatype Transaction =
    | Waiting(master: string, intent: Intent)
    | Holding(master: string, intent: Intent, staged: Records)
    | Ended

  /** The committed database and the transactions by number. */
  datatype State = State(sentinel: EncryptedSentinel, records: Records, transactions: map<nat, Transaction>)

  predicate Exclusive(intent: Intent) {
    intent.Rotate? || intent.exclusive
  }

  predicate Holds(s: State, t: nat) {
    t in s.transactions && s.transactions[t].Holding?
  }

  predicate HoldsExclusively(s: State, t: nat) {
    Holds(s, t) && Exclusive(s.transactions[t].intent)
  }

  /** The database grants the lock: shared with shared holders, exclusive alone. */
  predicate Grantable(s: State, intent: Intent) {
    forall u | u in s.transactions && Holds(s, u) :: !Exclusive(intent) && !HoldsExclusively(s, u)
  }

  datatype Step =
    | Start(t: nat, master: string, intent: Intent)
    | Lock(t: nat)
    | Insert(t: nat, slot: Slot, fingerprint: string, plain: string, random: Randomness)
    | RewrapNext(t: nat, slot: Slot, nonce: string)
    | Commit(t: nat, nonce: string)
    | Abort(t: nat)

  function OpenIn(master: string, slot: Slot, row: Row): Result<string> {
    DecryptRow(master, slot.table, slot.key, row)
  }

  function Identify(slot: Slot, fingerprint: string, e: Encrypted): Identity {
    IdentityOf(slot.table, slot.key, Row(fingerprint, e))
  }

  function SealNew(master: string, slot: Slot, fingerprint: string, plain: string,
                   random: Randomness): Result<Encrypted> {
    var blank := Encrypted("", "", "", Forged(""), TooShort);
    Encrypt(master, Identify(slot, fingerprint, blank), plain, random)
  }

  function RewrapStaged(tx: Transaction, slot: Slot, row: Row, nonce: string): Result<WrappedKey>
    requires tx.Holding? && tx.intent.Rotate?
  {
    Rewrap(tx.master, IdentityOf(slot.table, slot.key, row), row.encrypted, tx.intent.next, nonce)
  }

  predicate Enabled(s: State, step: Step) {
    match step
    case Start(t, master, intent) => t !in s.transactions
    case Lock(t) => t in s.transactions && s.transactions[t].Waiting? && Grantable(s, s.transactions[t].intent)
    case Insert(t, slot, fingerprint, plain, random) =>
      && Holds(s, t) && s.transactions[t].intent.Write? && random.Valid()
      && |slot.key.id| == ROW_ID_SIZE && SealNew(s.transactions[t].master, slot, fingerprint, plain, random).Ok?
    case RewrapNext(t, slot, nonce) =>
      && Holds(s, t) && s.transactions[t].intent.Rotate? && |nonce| == NONCE_SIZE
      && slot in s.records && slot !in s.transactions[t].staged && |slot.key.id| == ROW_ID_SIZE
      && RewrapStaged(s.transactions[t], slot, s.records[slot], nonce).Ok?
    case Commit(t, nonce) =>
      && Holds(s, t)
      && (s.transactions[t].intent.Rotate? ==>
            |nonce| == NONCE_SIZE && forall slot | slot in s.records :: slot in s.transactions[t].staged)
    case Abort(t) => t in s.transactions
  }

  function With(s: State, t: nat, tx: Transaction): State {
    s.(transactions := s.transactions[t := tx])
  }

  function Apply(s: State, step: Step): State
    requires Enabled(s, step)
  {
    match step
    case Start(t, master, intent) => With(s, t, Waiting(master, intent))
    case Lock(t) =>
      var tx := s.transactions[t];
      With(s, t, if VerifySentinel(tx.master, s.sentinel) then Holding(tx.master, tx.intent, map[]) else Ended)
    case Insert(t, slot, fingerprint, plain, random) =>
      var tx := s.transactions[t];
      var row := Row(fingerprint, SealNew(tx.master, slot, fingerprint, plain, random).value);
      With(s, t, tx.(staged := tx.staged[slot := row]))
    case RewrapNext(t, slot, nonce) =>
      var tx := s.transactions[t];
      var was := s.records[slot];
      var row := was.(encrypted := was.encrypted.(wrapped := RewrapStaged(tx, slot, was, nonce).value));
      With(s, t, tx.(staged := tx.staged[slot := row]))
    case Commit(t, nonce) =>
      var tx := s.transactions[t];
      var done := With(s, t, Ended).(records := s.records + tx.staged);
      if tx.intent.Rotate? then done.(sentinel := CreateSentinel(tx.intent.next, nonce)) else done
    case Abort(t) => With(s, t, Ended)
  }

  // ----- The invariant -----

  predicate AllOpenUnder(key: string, records: Records) {
    forall slot | slot in records :: OpenIn(key, slot, records[slot]).Ok?
  }

  /** What a holder has staged is sealed under its own key, or rewrapped from what is committed. */
  ghost predicate StagedWell(records: Records, tx: Transaction)
    requires tx.Holding?
  {
    if tx.intent.Write? then AllOpenUnder(tx.master, tx.staged)
    else
      && tx.staged.Keys <= records.Keys
      && forall slot | slot in tx.staged ::
           RowRewrapped(tx.master, tx.intent.next, slot.table, slot.key, records[slot], tx.staged[slot])
  }

  /** An exclusive holder is the only holder. */
  predicate LocksCompatible(s: State) {
    forall t, u | t in s.transactions && u in s.transactions && HoldsExclusively(s, t) && Holds(s, u) :: t == u
  }

  ghost predicate HoldersCurrent(s: State, key: string) {
    forall t | t in s.transactions && Holds(s, t) ::
      s.transactions[t].master == key && StagedWell(s.records, s.transactions[t])
  }

  ghost predicate Invariant(s: State, key: string) {
    && VerifySentinel(key, s.sentinel)
    && AllOpenUnder(key, s.records)
    && LocksCompatible(s)
    && HoldersCurrent(s, key)
  }

  /** A freshly initialized database. */
  lemma InitialInvariant(master: string, nonce: string)
    requires |nonce| == NONCE_SIZE
    ensures Invariant(State(CreateSentinel(master, nonce), map[], map[]), master)
  {
    SentinelIdentifiesKey(master, nonce, master);
  }

  /** The key the sentinel stands for after a step. */
  function KeyAfter(s: State, step: Step, key: string): string
    requires Enabled(s, step)
  {
    if step.Commit? && s.transactions[step.t].intent.Rotate? then s.transactions[step.t].intent.next else key
  }

  lemma NewRecordOpens(master: string, slot: Slot, fingerprint: string, plain: string, random: Randomness)
    requires random.Valid() && SealNew(master, slot, fingerprint, plain, random).Ok?
    ensures OpenIn(master, slot, Row(fingerprint, SealNew(master, slot, fingerprint, plain, random).value)) == Ok(plain)
  {
    hide Hex, Encrypt, Decrypt, ValidIdentity;
    var blank := Encrypted("", "", "", Forged(""), TooShort);
    EncryptDecrypts(master, Identify(slot, fingerprint, blank), plain, random);
  }

  lemma LockKeeps(s: State, step: Step, key: string)
    requires Invariant(s, key) && Enabled(s, step) && step.Lock?
    ensures Invariant(Apply(s, step), key)
  {
    hide AllOpenUnder, VerifySentinel;
    var t := step.t;
    var n := Apply(s, step);
    if VerifySentinel(s.transactions[t].master, s.sentinel) {
      OneSentinelKey(key, s.transactions[t].master, s.sentinel);
      NothingStaged(s.records, n.transactions[t]);
    }
  }

  lemma NothingStaged(records: Records, tx: Transaction)
    requires tx.Holding? && tx.staged == map[]
    ensures StagedWell(records, tx)
  {
  }

  lemma InsertKeeps(s: State, step: Step, key: string)
    requires Invariant(s, key) && Enabled(s, step) && step.Insert?
    ensures Invariant(Apply(s, step), key)
  {
    hide VerifySentinel, OpenIn, SealNew;
    NewRecordOpens(s.transactions[step.t].master, step.slot, step.fingerprint, step.plain, step.random);
  }

  lemma RewrapKeeps(s: State, step: Step, key: string)
    requires Invariant(s, key) && Enabled(s, step) && step.RewrapNext?
    ensures Invariant(Apply(s, step), key)
  {
    hide VerifySentinel, AllOpenUnder, RowRewrapped, IdentityOf, Rewrap, DecryptRow;
    var tx := s.transactions[step.t];
    RewrapRow(tx.master, tx.intent.next, step.slot.table, step.slot.key, s.records[step.slot], step.nonce);
  }

  lemma WriteCommitKeeps(s: State, step: Step, key: string)
    requires Invariant(s, key) && Enabled(s, step) && step.Commit? && s.transactions[step.t].intent.Write?
    ensures Invariant(Apply(s, step), key)
  {
    hide VerifySentinel, OpenIn, RowRewrapped;
    var n := Apply(s, step);
    forall u | u in n.transactions && Holds(n, u)
      ensures n.transactions[u].master == key && StagedWell(n.records, n.transactions[u])
    {
      assert Holds(s, u) && Holds(s, step.t);
      assert n.transactions[u] == s.transactions[u];
      assert !HoldsExclusively(s, u);
    }
  }

  lemma RotateCommitKeeps(s: State, step: Step, key: string)
    requires Invariant(s, key) && Enabled(s, step) && step.Commit? && s.transactions[step.t].intent.Rotate?
    ensures Invariant(Apply(s, step), s.transactions[step.t].intent.next)
  {
    hide VerifySentinel, OpenIn, CreateSentinel;
    var tx := s.transactions[step.t];
    var n := Apply(s, step);
    NewSentinel(tx.intent.next, step.nonce);
    assert Holds(s, step.t) && HoldsExclusively(s, step.t);
    forall slot | slot in n.records ensures OpenIn(tx.intent.next, slot, n.records[slot]).Ok? {
      RewrappedOpens(s, step.t, slot, key);
    }
    forall u | u in n.transactions ensures !Holds(n, u) {
      assert Holds(n, u) ==> Holds(s, u) && u != step.t;
    }
  }

  lemma RewrappedOpens(s: State, t: nat, slot: Slot, key: string)
    requires Invariant(s, key) && Holds(s, t) && s.transactions[t].intent.Rotate? && slot in s.transactions[t].staged
    ensures slot in s.records
    ensures OpenIn(s.transactions[t].intent.next, slot, s.transactions[t].staged[slot])
            == OpenIn(key, slot, s.records[slot])
    ensures OpenIn(key, slot, s.records[slot]).Ok?
  {
    hide VerifySentinel, DecryptRow;
    assert RowRewrapped(s.transactions[t].master, s.transactions[t].intent.next, slot.table, slot.key, s.records[slot],
                        s.transactions[t].staged[slot]);
  }

  lemma StepKeeps(s: State, step: Step, key: string)
    requires Invariant(s, key) && Enabled(s, step)
    ensures Invariant(Apply(s, step), KeyAfter(s, step, key))
  {
    hide VerifySentinel, AllOpenUnder, StagedWell, RewrapStaged, SealNew;
    match step
    case Lock(_) => LockKeeps(s, step, key);
    case Insert(_, _, _, _, _) => InsertKeeps(s, step, key);
    case RewrapNext(_, _, _) => RewrapKeeps(s, step, key);
    case Commit(t, _) =>
      if s.transactions[t].intent.Rotate? {
        RotateCommitKeeps(s, step, key);
      } else {
        WriteCommitKeeps(s, step, key);
      }
    case _ =>
  }

  // ----- Transactions come to their end -----

  /** Whoever is granted the lock holds it exactly when its key is the current one. */
  lemma CurrentKeyHolds(s: State, key: string, t: nat)
    requires Invariant(s, key) && t in s.transactions && s.transactions[t].Waiting?
    ensures Enabled(s, Lock(t)) <==> Grantable(s, s.transactions[t].intent)
    ensures Grantable(s, s.transactions[t].intent) ==>
              (Holds(Apply(s, Lock(t)), t) <==> s.transactions[t].master == key)
  {
    hide VerifySentinel, AllOpenUnder, StagedWell;
    if VerifySentinel(s.transactions[t].master, s.sentinel) {
      OneSentinelKey(key, s.transactions[t].master, s.sentinel);
    }
  }

  /** A writer may insert what has a valid identity, and commit at any time. */
  lemma WriterProceeds(s: State, t: nat, slot: Slot, fingerprint: string, plain: string, random: Randomness)
    requires Holds(s, t) && s.transactions[t].intent.Write? && random.Valid() && |slot.key.id| == ROW_ID_SIZE
    ensures Enabled(s, Insert(t, slot, fingerprint, plain, random)) <==>
            Identified(Identify(slot, fingerprint, Encrypted("", "", "", Forged(""), TooShort)))
    ensures forall nonce :: Enabled(s, Commit(t, nonce))
  {
    hide Hex, Encrypt, IdentityOf, Identified;
    EncryptsExactly(s.transactions[t].master, Identify(slot, fingerprint, Encrypted("", "", "", Forged(""), TooShort)),
                    plain, random);
  }

  /** A rotation that holds the lock can rewrap every record it has not rewrapped yet, and commit when there is
      none left. */
  lemma RotationProceeds(s: State, key: string, t: nat, nonce: string)
    requires Invariant(s, key) && Holds(s, t) && s.transactions[t].intent.Rotate? && |nonce| == NONCE_SIZE
    requires forall slot | slot in s.records :: |slot.key.id| == ROW_ID_SIZE
    ensures forall slot | slot in s.records && slot !in s.transactions[t].staged ::
              Enabled(s, RewrapNext(t, slot, nonce))
    ensures s.records.Keys <= s.transactions[t].staged.Keys ==> Enabled(s, Commit(t, nonce))
  {
    hide VerifySentinel, StagedWell, Rewrap, DecryptRow, IdentityOf;
    var tx := s.transactions[t];
    forall slot | slot in s.records && slot !in tx.staged ensures Enabled(s, RewrapNext(t, slot, nonce)) {
      RewrapRow(tx.master, tx.intent.next, slot.table, slot.key, s.records[slot], nonce);
      assert OpenIn(key, slot, s.records[slot]).Ok?;
    }
  }

  // ----- Runs -----

  /** A run: each state follows from the one before by an enabled step. */
  ghost predicate IsRun(states: seq<State>, steps: seq<Step>) {
    && |states| == |steps| + 1
    && forall i | 0 <= i < |steps| :: Enabled(states[i], steps[i]) && states[i + 1] == Apply(states[i], steps[i])
  }

  /** In every interleaving one key, the one the sentinel verifies, opens all committed records. */
  lemma {:induction false} AlwaysOneKey(states: seq<State>, steps: seq<Step>, key: string, i: nat) returns (now: string)
    requires IsRun(states, steps) && Invariant(states[0], key) && i < |states|
    ensures Invariant(states[i], now)
    ensures forall k :: VerifySentinel(k, states[i].sentinel) <==> k == now
    decreases i
  {
    hide Invariant, Enabled, Apply;
    now := key;
    if i > 0 {
      now := AlwaysOneKey(states, steps, key, i - 1);
      StepKeeps(states[i - 1], steps[i - 1], now);
      now := KeyAfter(states[i - 1], steps[i - 1], now);
    }
    SentinelOf(states[i], now);
  }

  lemma SentinelOf(s: State, key: string)
    requires Invariant(s, key)
    ensures forall k :: VerifySentinel(k, s.sentinel) <==> k == key
  {
    hide VerifySentinel;
    forall k | VerifySentinel(k, s.sentinel) ensures k == key {
      OneSentinelKey(k, key, s.sentinel);
    }
  }

  /** Whoever commits still holds the current key: a writer with an old key cannot commit after a
      rotation, and what a writer commits opens under the key that stays current. */
  lemma CommitsAreCurrent(states: seq<State>, steps: seq<Step>, key: string, i: nat)
    requires IsRun(states, steps) && Invariant(states[0], key) && i < |steps| && steps[i].Commit?
    ensures var tx := states[i].transactions[steps[i].t];
            && VerifySentinel(tx.master, states[i].sentinel)
            && (tx.intent.Write? ==>
                 VerifySentinel(tx.master, states[i + 1].sentinel)
                 && AllOpenUnder(tx.master, tx.staged))
  {
    hide VerifySentinel, AllOpenUnder;
    var now := AlwaysOneKey(states, steps, key, i);
    assert Holds(states[i], steps[i].t);
  }

  /** While a transaction holds the lock nobody else changes the sentinel, so the key it checked when it
      locked is the key it commits under. */
  lemma {:induction false} LockPinsSentinel(states: seq<State>, steps: seq<Step>, key: string, t: nat, i: nat, j: nat)
    requires IsRun(states, steps) && Invariant(states[0], key) && i <= j < |states|
    requires forall k | i <= k <= j :: Holds(states[k], t)
    ensures states[j].sentinel == states[i].sentinel
    decreases j - i
  {
    hide Invariant, Enabled, Apply, KeyAfter;
    if i < j {
      LockPinsSentinel(states, steps, key, t, i, j - 1);
      var now := AlwaysOneKey(states, steps, key, j - 1);
      assert Holds(states[j - 1], t) && Holds(states[j], t);
      OtherRotationExcluded(states[j - 1], steps[j - 1], now, t);
    }
  }

  lemma OtherRotationExcluded(s: State, step: Step, key: string, t: nat)
    requires Invariant(s, key) && Enabled(s, step) && Holds(s, t) && Holds(Apply(s, step), t)
    ensures Apply(s, step).sentinel == s.sentinel
  {
    hide VerifySentinel, AllOpenUnder, StagedWell, RewrapStaged, SealNew, CreateSentinel;
    assert step.Commit? && s.transactions[step.t].intent.Rotate? ==> HoldsExclusively(s, step.t);
  }

  /** The step commits a record that a writer staged in the slot. */
  predicate Writes(s: State, step: Step, slot: Slot)
    requires Enabled(s, step)
  {
    step.Commit? && s.transactions[step.t].intent.Write? && slot in s.transactions[step.t].staged
  }

  /** The plain text of a record under the key the sentinel stands for. */
  ghost predicate Shows(s: State, slot: Slot, plain: string) {
    slot in s.records && exists key ::
      VerifySentinel(key, s.sentinel)
      && OpenIn(key, slot, s.records[slot]) == Ok(plain)
  }

  /** Only a writer that staged a record changes what it shows; rotations never do. */
  lemma PlainTextPreserved(s: State, step: Step, key: string, slot: Slot, plain: string)
    requires Invariant(s, key) && Enabled(s, step) && Shows(s, slot, plain)
    requires !Writes(s, step, slot)
    ensures Shows(Apply(s, step), slot, plain)
  {
    hide VerifySentinel, StagedWell, RewrapStaged, SealNew, CreateSentinel, OpenIn;
    SentinelOf(s, key);
    StepKeeps(s, step, key);
    SentinelOf(Apply(s, step), KeyAfter(s, step, key));
    assert VerifySentinel(KeyAfter(s, step, key), Apply(s, step).sentinel);
    if step.Commit? && s.transactions[step.t].intent.Rotate? {
      RewrappedOpens(s, step.t, slot, key);
    }
  }
}
