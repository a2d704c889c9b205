/** Offline rotation of the master key: one transaction that verifies every encrypted record and then
    rewraps its data key. Models RotateMasterKey and rewrapTable of
    internal/storage/mysqlstore/key_rotation.go and verifyEncryptedState of verification.go. */
module KeyRotation {
  import opened Ordering
  import opened Encoding
  import opened VaultCrypto

  datatype Table = VaultRevisions | Authorities | Destinations

  /** The primary key of an encrypted row; only Vault revisions have a revision column. */
  datatype RowKey = RowKey(id: string, revision: nat)

  /** An encrypted row; `fingerprint` is the hex SHA-256 of an authority's certificate. */
  datatype Row = Row(fingerprint: string, encrypted: Encrypted)

  type Rows = map<RowKey, Row>

  const ROW_ID_SIZE: nat := 16

  function HexDigit(n: nat): char
    requires n < 16
  {
    "0123456789abcdef"[n]
  }

  /** hex.EncodeToString. */
  function Hex(bytes: string): string {
    if bytes == "" then ""
    else [HexDigit(bytes[0] as nat / 16 % 16), HexDigit(bytes[0] as nat % 16)] + Hex(bytes[1..])
  }

  /** The identity a record of each table is sealed for. */
  function IdentityOf(table: Table, key: RowKey, row: Row): Identity {
    match table
    case VaultRevisions => Snapshot(Hex(key.id), key.revision)
    case Authorities => Secret("ca:" + Hex(key.id) + ":" + row.fingerprint)
    case Destinations => Secret("notification-destination:" + Hex(key.id))
  }

  function DecryptRow(master: string, table: Table, key: RowKey, row: Row): Result<string> {
    Decrypt(master, IdentityOf(table, key, row), row.encrypted)
  }

  /** A row that rotation can carry over. */
  predicate Opens(master: string, table: Table, key: RowKey, row: Row) {
    |key.id| == ROW_ID_SIZE && DecryptRow(master, table, key, row).Ok?
  }

  predicate AllOpen(master: string, table: Table, rows: Rows) {
    forall k | k in rows :: Opens(master, table, k, rows[k])
  }

  // ----- The cursor -----

  predicate KeyLess(a: RowKey, b: RowKey) {
    Less(a.id, b.id) || (a.id == b.id && a.revision < b.revision)
  }

  /** The WHERE clause for the rows still to come. */
  predicate After(table: Table, cursor: Option<RowKey>, k: RowKey) {
    cursor.None? || Less(cursor.value.id, k.id)
    || (table == VaultRevisions && cursor.value.id == k.id && k.revision > cursor.value.revision)
  }

  /** Rows of tables without a revision column all read revision 0. */
  predicate WellKeyed(table: Table, rows: Rows) {
    table == VaultRevisions || forall k | k in rows :: k.revision == 0
  }

  predicate IsNext(table: Table, rows: Rows, cursor: Option<RowKey>, k: RowKey) {
    k in rows && After(table, cursor, k) && forall l | l in rows && After(table, cursor, l) :: l == k || KeyLess(k, l)
  }

  lemma KeyLessTotal(a: RowKey, b: RowKey)
    ensures a == b || KeyLess(a, b) || KeyLess(b, a)
  {
    LessTotal(a.id, b.id);
  }

  lemma KeyLessTransitive(a: RowKey, b: RowKey, c: RowKey)
    requires KeyLess(a, b) && KeyLess(b, c)
    ensures KeyLess(a, c)
  {
    if Less(a.id, b.id) && Less(b.id, c.id) {
      LessTransitive(a.id, b.id, c.id);
    }
  }

  lemma KeyLessIrreflexive(a: RowKey, b: RowKey)
    requires KeyLess(a, b)
    ensures !KeyLess(b, a) && a != b
  {
    LessIrreflexive(a.id);
    LessIrreflexive(b.id);
    if KeyLess(b, a) {
      KeyLessTransitive(a, b, a);
    }
  }

  /** On well-keyed rows the WHERE clause is the strict key order. */
  lemma AfterIsLess(table: Table, rows: Rows, c: RowKey, k: RowKey)
    requires WellKeyed(table, rows) && c in rows && k in rows
    ensures After(table, Some(c), k) <==> KeyLess(c, k)
  {
  }

  ghost predicate LeastKey(keys: set<RowKey>, k: RowKey) {
    k in keys && forall l | l in keys :: l == k || KeyLess(k, l)
  }

  lemma {:induction false} LeastKeyExists(keys: set<RowKey>) returns (k: RowKey)
    requires keys != {}
    ensures LeastKey(keys, k)
    decreases |keys|
  {
    var x :| x in keys;
    k := x;
    if keys != {x} {
      k := LeastKeyExists(keys - {x});
      KeyLessTotal(x, k);
      if KeyLess(x, k) {
        forall l | l in keys ensures l == x || KeyLess(x, l) {
          if l != x && l != k {
            KeyLessTransitive(x, k, l);
          }
        }
        k := x;
      }
    }
  }

  lemma NextExists(table: Table, rows: Rows, cursor: Option<RowKey>)
    requires exists k :: k in rows && After(table, cursor, k)
    ensures exists k :: IsNext(table, rows, cursor, k)
  {
    var left := set k | k in rows && After(table, cursor, k);
    var some :| some in rows && After(table, cursor, some);
    assert some in left;
    var k := LeastKeyExists(left);
    assert IsNext(table, rows, cursor, k);
  }

  /** SELECT ... ORDER BY ... LIMIT 1 FOR UPDATE. */
  method SelectNext(table: Table, rows: Rows, cursor: Option<RowKey>) returns (next: Option<RowKey>)
    ensures next.Some? ==> IsNext(table, rows, cursor, next.value)
    ensures next.None? ==> forall k | k in rows :: !After(table, cursor, k)
  {
    if exists k :: k in rows && After(table, cursor, k) {
      NextExists(table, rows, cursor);
      var k :| k in rows && IsNext(table, rows, cursor, k);
      next := Some(k);
    } else {
      next := None;
    }
  }

  method RandomNonce() returns (nonce: string)
    ensures |nonce| == NONCE_SIZE
  {
    nonce := *;
    if |nonce| != NONCE_SIZE {
      nonce := seq(NONCE_SIZE, _ => '0');
    }
  }

  // ----- Rewrapping a table -----

  /** A row after rewrapping: only its wrapped data key has changed, and the next key, and no other,
      decrypts it to the same plain text. */
  ghost predicate RowRewrapped(master: string, next: string, table: Table, key: RowKey, was: Row, row: Row) {
    && row == was.(encrypted := was.encrypted.(wrapped := row.encrypted.wrapped))
    && forall k :: DecryptRow(k, table, key, row) ==
                   if k == next then DecryptRow(master, table, key, was) else Err(Integrity)
  }

  ghost predicate TableRewrapped(master: string, next: string, table: Table, was: Rows, rows: Rows) {
    rows.Keys == was.Keys && forall k | k in rows :: RowRewrapped(master, next, table, k, was[k], rows[k])
  }

  lemma RewrapRow(master: string, next: string, table: Table, key: RowKey, was: Row, nonce: string)
    requires |nonce| == NONCE_SIZE
    ensures var r := Rewrap(master, IdentityOf(table, key, was), was.encrypted, next, nonce);
            && (r.Ok? <==> DecryptRow(master, table, key, was).Ok?)
            && (r.Ok? ==> RowRewrapped(master, next, table, key, was,
                                       was.(encrypted := was.encrypted.(wrapped := r.value))))
  {
    hide Decrypt, Rewrap, Hex;
    RewrapPreserves(master, IdentityOf(table, key, was), was.encrypted, next, nonce);
  }

  ghost predicate KeysAscending(visits: seq<RowKey>) {
    forall i, j | 0 <= i < j < |visits| :: KeyLess(visits[i], visits[j])
  }

  /** The rows a walk with this cursor has passed. */
  ghost predicate Passed(table: Table, was: Rows, cursor: Option<RowKey>, visits: seq<RowKey>) {
    && KeysAscending(visits)
    && (forall k | k in visits :: k in was)
    && (forall k | k in was :: k in visits <==> !After(table, cursor, k))
    && (if visits == [] then cursor == None else cursor == Some(visits[|visits| - 1]))
  }

  lemma PassedOneMore(table: Table, was: Rows, cursor: Option<RowKey>, visits: seq<RowKey>, k: RowKey)
    requires WellKeyed(table, was) && Passed(table, was, cursor, visits) && IsNext(table, was, cursor, k)
    ensures Passed(table, was, Some(k), visits + [k]) && k !in visits
  {
    var more := visits + [k];
    forall i | 0 <= i < |visits| ensures KeyLess(visits[i], k) {
      var last := visits[|visits| - 1];
      assert visits[i] in visits && last in visits;
      AfterIsLess(table, was, last, k);
      if i < |visits| - 1 {
        KeyLessTransitive(visits[i], last, k);
      }
    }
    forall l | l in was ensures l in more <==> !After(table, Some(k), l) {
      AfterIsLess(table, was, k, l);
      if l in visits {
        KeyLessIrreflexive(l, k);
      } else if l != k {
        assert KeyLess(k, l);
      } else if KeyLess(k, k) {
        KeyLessIrreflexive(k, k);
      }
    }
  }

  lemma {:induction false} AscendingCount(visits: seq<RowKey>)
    requires KeysAscending(visits)
    ensures |Elements(visits)| == |visits|
  {
    hide KeyLess;
    if visits != [] {
      var last := visits[|visits| - 1];
      var rest := visits[..|visits| - 1];
      AscendingCount(rest);
      forall k | k in rest ensures k != last {
        var i :| 0 <= i < |rest| && rest[i] == k;
        KeyLessIrreflexive(visits[i], last);
      }
      assert Elements(visits) == Elements(rest) + {last};
    }
  }

  datatype RotationError =
    | IntegrityFailure | SameKey | NotTransactional | WrongSchema | UnreadableRow | CountsChanged | OperationExists
    | OutcomeUnknown

  /** Rows of one table during the transaction. */
  ghost predicate HalfRewrapped(master: string, next: string, table: Table, was: Rows, rows: Rows,
                                visits: seq<RowKey>) {
    && rows.Keys == was.Keys
    && (forall k | k in was && k !in visits :: rows[k] == was[k])
    && forall k | k in was && k in visits ::
         Opens(master, table, k, was[k]) && RowRewrapped(master, next, table, k, was[k], rows[k])
  }

  lemma HalfStep(master: string, next: string, table: Table, was: Rows, rows: Rows, visits: seq<RowKey>, k: RowKey,
                 row: Row)
    requires HalfRewrapped(master, next, table, was, rows, visits) && k in was && k !in visits
    requires Opens(master, table, k, was[k]) && RowRewrapped(master, next, table, k, was[k], row)
    ensures HalfRewrapped(master, next, table, was, rows[k := row], visits + [k])
  {
    hide Opens, RowRewrapped;
  }

  lemma HalfDone(master: string, next: string, table: Table, was: Rows, rows: Rows, visits: seq<RowKey>)
    requires HalfRewrapped(master, next, table, was, rows, visits) && Elements(visits) == was.Keys
    ensures AllOpen(master, table, was) && TableRewrapped(master, next, table, was, rows)
  {
    hide Opens, RowRewrapped;
    assert forall k | k in was :: k in Elements(visits);
  }

  /** rewrapTable: each row is selected, rewrapped and updated in turn; the cursor passes every row
      exactly once, although the table changes under it. */
  method RewrapTable(master: string, next: string, table: Table, was: Rows)
    returns (error: Option<RotationError>, rows: Rows, count: nat, ghost visits: seq<RowKey>)
    requires WellKeyed(table, was)
    ensures error.None? <==> AllOpen(master, table, was)
    ensures error.None? ==> TableRewrapped(master, next, table, was, rows) && count == |was|
    ensures error.None? ==> KeysAscending(visits) && Elements(visits) == was.Keys
  {
    hide TableRewrapped, AllOpen, Passed, HalfRewrapped, IsNext, WellKeyed, KeysAscending, Elements;
    rows, count, visits := was, 0, [];
    var cursor: Option<RowKey> := None;
    StartTable(master, next, table, was);
    while true
      invariant Passed(table, was, cursor, visits) && count == |visits|
      invariant HalfRewrapped(master, next, table, was, rows, visits)
      decreases |was.Keys - Elements(visits)|
    {
      var selected := SelectNext(table, rows, cursor);
      if selected.None? {
        AllPassed(master, next, table, was, rows, cursor, visits);
        return None, rows, count, visits;
      }
      var k := selected.value;
      NextUntouched(master, next, table, was, rows, cursor, visits, k);
      var failed, row := RewrapOne(master, next, table, k, rows[k]);
      if failed {
        NotAllOpen(master, table, was, k);
        return Some(UnreadableRow), rows, count, visits;
      }
      HalfStep(master, next, table, was, rows, visits, k, row);
      FewerLeft(was, visits, k);
      rows, cursor, visits, count := rows[k := row], Some(k), visits + [k], count + 1;
    }
  }

  /** What the loop does to the selected row. */
  method RewrapOne(master: string, next: string, table: Table, k: RowKey, was: Row) returns (failed: bool, row: Row)
    ensures failed <==> !Opens(master, table, k, was)
    ensures !failed ==> RowRewrapped(master, next, table, k, was, row)
  {
    hide Hex, Rewrap, RowRewrapped, Decrypt;
    if |k.id| != ROW_ID_SIZE {
      return true, was;
    }
    var nonce := RandomNonce();
    RewrapRow(master, next, table, k, was, nonce);
    var wrapped := Rewrap(master, IdentityOf(table, k, was), was.encrypted, next, nonce);
    if wrapped.Err? {
      return true, was;
    }
    return false, was.(encrypted := was.encrypted.(wrapped := wrapped.value));
  }

  lemma StartTable(master: string, next: string, table: Table, was: Rows)
    ensures Passed(table, was, None, []) && HalfRewrapped(master, next, table, was, was, [])
  {
  }

  lemma NotAllOpen(master: string, table: Table, was: Rows, k: RowKey)
    requires k in was && !Opens(master, table, k, was[k])
    ensures !AllOpen(master, table, was)
  {
  }

  lemma AllPassed(master: string, next: string, table: Table, was: Rows, rows: Rows, cursor: Option<RowKey>,
                  visits: seq<RowKey>)
    requires Passed(table, was, cursor, visits) && HalfRewrapped(master, next, table, was, rows, visits)
    requires forall k | k in rows :: !After(table, cursor, k)
    ensures Elements(visits) == was.Keys && |visits| == |was| && KeysAscending(visits)
    ensures AllOpen(master, table, was) && TableRewrapped(master, next, table, was, rows)
  {
    hide Opens, RowRewrapped, After, KeyLess;
    AscendingCount(visits);
    assert Elements(visits) == was.Keys;
    HalfDone(master, next, table, was, rows, visits);
  }

  lemma NextUntouched(master: string, next: string, table: Table, was: Rows, rows: Rows,
                      cursor: Option<RowKey>, visits: seq<RowKey>, k: RowKey)
    requires WellKeyed(table, was) && Passed(table, was, cursor, visits)
    requires HalfRewrapped(master, next, table, was, rows, visits) && IsNext(table, rows, cursor, k)
    ensures k in rows && k in was && k !in visits && rows[k] == was[k]
    ensures Passed(table, was, Some(k), visits + [k])
  {
    hide WellKeyed, After, KeyLess, Opens, RowRewrapped, KeysAscending;
    assert IsNext(table, was, cursor, k);
    PassedOneMore(table, was, cursor, visits, k);
  }

  lemma FewerLeft(was: Rows, visits: seq<RowKey>, k: RowKey)
    requires k in was && k !in visits
    ensures |was.Keys - Elements(visits + [k])| < |was.Keys - Elements(visits)|
  {
    assert Elements(visits + [k]) == Elements(visits) + {k};
    assert was.Keys - Elements(visits) == (was.Keys - Elements(visits + [k])) + {k};
  }

  // ----- No row can stand in for another -----

  lemma {:induction false} HexInjective(a: string, b: string)
    requires Hex(a) == Hex(b)
    requires (forall i | 0 <= i < |a| :: a[i] as nat < 256) && (forall i | 0 <= i < |b| :: b[i] as nat < 256)
    ensures a == b
  {
    if a != "" && b != "" {
      assert Hex(a)[2..] == Hex(a[1..]) && Hex(b)[2..] == Hex(b[1..]);
      HexInjective(a[1..], b[1..]);
      ByteFromDigits(a[0] as nat, b[0] as nat);
      assert a == [a[0]] + a[1..] && b == [b[0]] + b[1..];
    }
  }

  lemma ByteFromDigits(m: nat, n: nat)
    requires m < 256 && n < 256
    requires HexDigit(m / 16 % 16) == HexDigit(n / 16 % 16) && HexDigit(m % 16) == HexDigit(n % 16)
    ensures m == n
  {
    hide HexDigit;
    DigitsInjective(m / 16 % 16, n / 16 % 16);
    DigitsInjective(m % 16, n % 16);
    assert m == m / 16 * 16 + m % 16 && n == n / 16 * 16 + n % 16;
    assert m / 16 < 16 && n / 16 < 16;
  }

  lemma DigitsInjective(m: nat, n: nat)
    requires m < 16 && n < 16 && HexDigit(m) == HexDigit(n)
    ensures m == n
  {
  }

  lemma {:induction false} HexLength(a: string)
    ensures |Hex(a)| == 2 * |a|
  {
    if a != "" {
      HexLength(a[1..]);
    }
  }

  predicate ByteId(id: string) {
    |id| == ROW_ID_SIZE && forall i | 0 <= i < |id| :: id[i] as nat < 256
  }

  lemma FirstLetter(t: Table, k: RowKey, row: Row)
    ensures IdentityOf(t, k, row).Snapshot? <==> t == VaultRevisions
    ensures t != VaultRevisions ==>
              IdentityOf(t, k, row).id != "" && IdentityOf(t, k, row).id[0] == if t == Authorities then 'c' else 'n'
  {
    hide Hex;
  }

  /** The identities of two rows agree only if it is the same row of the same table. */
  lemma IdentityInjective(s: Table, k: RowKey, a: Row, t: Table, l: RowKey, b: Row)
    requires ByteId(k.id) && ByteId(l.id) && IdentityOf(s, k, a) == IdentityOf(t, l, b)
    ensures s == t && k.id == l.id && (s == VaultRevisions ==> k == l)
    ensures (s == Authorities ==> a.fingerprint == b.fingerprint)
  {
    hide Hex;
    HexLength(k.id);
    HexLength(l.id);
    FirstLetter(s, k, a);
    FirstLetter(t, l, b);
    if s == Authorities && t == Authorities {
      assert IdentityOf(s, k, a).id == "ca:" + (Hex(k.id) + (":" + a.fingerprint));
      assert IdentityOf(t, l, b).id == "ca:" + (Hex(l.id) + (":" + b.fingerprint));
      SplitAt("ca:", Hex(k.id) + (":" + a.fingerprint), "ca:", Hex(l.id) + (":" + b.fingerprint));
      SplitAt(Hex(k.id), ":" + a.fingerprint, Hex(l.id), ":" + b.fingerprint);
      SplitAt(":", a.fingerprint, ":", b.fingerprint);
    } else if s == Destinations && t == Destinations {
      SplitAt("notification-destination:", Hex(k.id), "notification-destination:", Hex(l.id));
    }
    HexInjective(k.id, l.id);
  }

  /** A sealed record opens in one row and under one key only. */
  lemma RowsNotInterchangeable(m: string, s: Table, k: RowKey, a: Row, n: string, t: Table, l: RowKey, b: Row)
    requires ByteId(k.id) && ByteId(l.id) && k.revision < UINT64_LIMIT && l.revision < UINT64_LIMIT
    requires a.encrypted == b.encrypted && DecryptRow(m, s, k, a).Ok? && DecryptRow(n, t, l, b).Ok?
    ensures m == n && s == t && k.id == l.id && (s == VaultRevisions ==> k == l)
  {
    hide Hex, AdditionalData;
    HexLength(k.id);
    HexLength(l.id);
    DecryptsOnce(m, IdentityOf(s, k, a), a.encrypted, n, IdentityOf(t, l, b));
    IdentityInjective(s, k, a, t, l, b);
  }

  // ----- The transaction -----

  datatype Report = Report(vaultRevisions: nat, certificateAuthorities: nat, notificationDestinations: nat)

  const SCHEMA_VERSION: nat := 4

  /** The tables a rotation reads and writes, all of which must be transactional. */
  const ROTATED_TABLES: nat := 6

  /** Besides the rows: the applied schema version, and how many of those tables are visible InnoDB tables. */
  datatype Db = Db(schemaVersion: nat, transactionalTables: nat, sentinel: Option<EncryptedSentinel>,
                   vaultRevisions: Rows,
                   authorities: Rows, destinations: Rows, operations: map<string, Report>, audit: seq<string>) {
    predicate WellFormed() {
      WellKeyed(Authorities, authorities) && WellKeyed(Destinations, destinations)
    }

    function Sizes(): Report {
      Report(|vaultRevisions|, |authorities|, |destinations|)
    }
  }

  /** One key seals everything: the sentinel verifies it and every record decrypts under it. */
  predicate Consistent(db: Db, key: string) {
    && db.sentinel.Some? && VerifySentinel(key, db.sentinel.value)
    && AllOpen(key, VaultRevisions, db.vaultRevisions)
    && AllOpen(key, Authorities, db.authorities)
    && AllOpen(key, Destinations, db.destinations)
  }

  /** The effect of a committed rotation. */
  ghost predicate Rotated(was: Db, now: Db, master: string, next: string, id: string) {
    && now.sentinel.Some? && (forall k :: VerifySentinel(k, now.sentinel.value) <==> k == next)
    && TableRewrapped(master, next, VaultRevisions, was.vaultRevisions, now.vaultRevisions)
    && TableRewrapped(master, next, Authorities, was.authorities, now.authorities)
    && TableRewrapped(master, next, Destinations, was.destinations, now.destinations)
    && id !in was.operations && now.operations == was.operations[id := was.Sizes()]
    && now.audit == was.audit + [id]
    && now.schemaVersion == was.schemaVersion && now.transactionalTables == was.transactionalTables
  }

  lemma TableHandedOver(master: string, next: string, table: Table, was: Rows, rows: Rows)
    requires AllOpen(master, table, was) && TableRewrapped(master, next, table, was, rows)
    ensures AllOpen(next, table, rows)
    ensures forall key, k | key != next && k in rows :: !Opens(key, table, k, rows[k])
    ensures forall k | k in rows :: DecryptRow(next, table, k, rows[k]) == DecryptRow(master, table, k, was[k])
  {
    hide DecryptRow;
    forall k | k in rows ensures Opens(next, table, k, rows[k]) {
      assert RowRewrapped(master, next, table, k, was[k], rows[k]);
    }
  }

  /** A rotation hands everything over to the next key, and to no other. */
  lemma RotationHandsOver(was: Db, now: Db, master: string, next: string, id: string)
    requires Consistent(was, master) && Rotated(was, now, master, next, id)
    ensures forall key :: Consistent(now, key) <==> key == next
  {
    hide AllOpen, TableRewrapped, Opens, VerifySentinel;
    TableHandedOver(master, next, VaultRevisions, was.vaultRevisions, now.vaultRevisions);
    TableHandedOver(master, next, Authorities, was.authorities, now.authorities);
    TableHandedOver(master, next, Destinations, was.destinations, now.destinations);
  }

  class Store {
    const master: string
    /** Whether a decrypted record decodes as what its table stores. */
    const readable: (Table, Row, string) -> bool
    var db: Db

    constructor (master: string, readable: (Table, Row, string) -> bool, db: Db)
      ensures this.master == master && this.readable == readable && this.db == db
    {
      this.master, this.readable, this.db := master, readable, db;
    }

    predicate ReadableRow(table: Table, k: RowKey, row: Row) {
      && Opens(master, table, k, row)
      && readable(table, row, DecryptRow(master, table, k, row).value)
    }

    predicate AllReadable(table: Table, rows: Rows) {
      forall k | k in rows :: ReadableRow(table, k, rows[k])
    }

    /** When a rotation to the next key can go through. */
    predicate Rotatable(was: Db, next: string, id: string) {
      && was.sentinel.Some? && VerifySentinel(master, was.sentinel.value) && !VerifySentinel(next, was.sentinel.value)
      && was.transactionalTables == ROTATED_TABLES && was.schemaVersion == SCHEMA_VERSION
      && AllReadable(VaultRevisions, was.vaultRevisions)
      && AllReadable(Authorities, was.authorities)
      && AllReadable(Destinations, was.destinations)
      && id !in was.operations
    }

    /** verifyEncryptedTable. */
    method VerifyTable(table: Table, rows: Rows) returns (count: Option<nat>)
      ensures count == if AllReadable(table, rows) then Some(|rows|) else None
    {
      hide ReadableRow;
      var left := rows.Keys;
      var seen := 0;
      while left != {}
        invariant left <= rows.Keys && seen + |left| == |rows|
        invariant forall k | k in rows && k !in left :: ReadableRow(table, k, rows[k])
        decreases |left|
      {
        var k :| k in left;
        if !ReadableRow(table, k, rows[k]) {
          return None;
        }
        left, seen := left - {k}, seen + 1;
      }
      count := Some(seen);
    }

    /** verifyEncryptedState. */
    method VerifyEncryptedState(tx: Db) returns (report: Option<Report>)
      ensures report ==
              if && tx.schemaVersion == SCHEMA_VERSION && tx.sentinel.Some? && VerifySentinel(master, tx.sentinel.value)
                 && AllReadable(VaultRevisions, tx.vaultRevisions)
                 && AllReadable(Authorities, tx.authorities)
                 && AllReadable(Destinations, tx.destinations)
              then Some(tx.Sizes()) else None
    {
      hide AllReadable, VerifySentinel;
      if tx.schemaVersion != SCHEMA_VERSION {
        return None;
      }
      if tx.sentinel.None? || !VerifySentinel(master, tx.sentinel.value) {
        return None;
      }
      var revisions := VerifyTable(VaultRevisions, tx.vaultRevisions);
      if revisions.None? {
        return None;
      }
      var authorities := VerifyTable(Authorities, tx.authorities);
      if authorities.None? {
        return None;
      }
      var destinations := VerifyTable(Destinations, tx.destinations);
      if destinations.None? {
        return None;
      }
      report := Some(Report(revisions.value, authorities.value, destinations.value));
    }

    lemma ReadableOpens(table: Table, rows: Rows)
      requires AllReadable(table, rows)
      ensures AllOpen(master, table, rows)
    {
      hide Opens;
    }

    /** RotateMasterKey: everything happens in one transaction, which is `tx` until it commits. `id` is
        the random identifier of the operation; `commits` says whether the database confirms the
        commit. */
    method RotateMasterKey(next: string, id: string, commits: bool) returns (error: Option<RotationError>)
      requires db.WellFormed()
      modifies this
      ensures error.None? ==> commits && Rotated(old(db), db, master, next, id)
      ensures error == Some(OutcomeUnknown) ==> !commits && (db == old(db) || Rotated(old(db), db, master, next, id))
      ensures error.Some? && error.value != OutcomeUnknown ==> db == old(db)
      ensures error.None? || error.value == OutcomeUnknown <==> Rotatable(old(db), next, id)
    {
      hide AllReadable, VerifySentinel, TableRewrapped, AllOpen, WellKeyed, KeysAscending, Elements, CreateSentinel;
      var tx := db;
      if tx.sentinel.None? || !VerifySentinel(master, tx.sentinel.value) {
        return Some(IntegrityFailure);
      }
      if VerifySentinel(next, tx.sentinel.value) {
        return Some(SameKey);
      }
      if tx.transactionalTables != ROTATED_TABLES {
        return Some(NotTransactional);
      }
      var verified := VerifyEncryptedState(tx);
      if verified.None? {
        return Some(if tx.schemaVersion != SCHEMA_VERSION then WrongSchema else IntegrityFailure);
      }
      ReadableOpens(VaultRevisions, tx.vaultRevisions);
      ReadableOpens(Authorities, tx.authorities);
      ReadableOpens(Destinations, tx.destinations);
      WellKeyedRevisions(tx.vaultRevisions);
      ghost var visits;
      var failed, rows, revisions;
      failed, rows, revisions, visits := RewrapTable(master, next, VaultRevisions, tx.vaultRevisions);
      if failed.Some? {
        return failed;
      }
      tx := tx.(vaultRevisions := rows);
      var authorities, destinations;
      failed, rows, authorities, visits := RewrapTable(master, next, Authorities, tx.authorities);
      if failed.Some? {
        return failed;
      }
      tx := tx.(authorities := rows);
      failed, rows, destinations, visits := RewrapTable(master, next, Destinations, tx.destinations);
      if failed.Some? {
        return failed;
      }
      tx := tx.(destinations := rows);
      var report := Report(revisions, authorities, destinations);
      if report != verified.value {
        return Some(CountsChanged);
      }
      var nonce := RandomNonce();
      NewSentinel(next, nonce);
      tx := tx.(sentinel := Some(CreateSentinel(next, nonce)));
      if id in tx.operations {
        return Some(OperationExists);
      }
      tx := tx.(operations := tx.operations[id := report], audit := tx.audit + [id]);
      if !commits {
        var applied := *;
        if applied {
          db := tx;
        }
        return Some(OutcomeUnknown);
      }
      db := tx;
      error := None;
    }
  }

  lemma WellKeyedRevisions(rows: Rows)
    ensures WellKeyed(VaultRevisions, rows)
  {
  }

  lemma NewSentinel(next: string, nonce: string)
    requires |nonce| == NONCE_SIZE
    ensures forall k :: VerifySentinel(k, CreateSentinel(next, nonce)) <==> k == next
  {
    forall k ensures VerifySentinel(k, CreateSentinel(next, nonce)) <==> k == next {
      SentinelIdentifiesKey(next, nonce, k);
    }
  }
}
