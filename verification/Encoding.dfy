/** Length-prefixed encodings: the additional data of every sealed record and the text hashed into
    an ETag. Models snapshotAAD, secretAAD, sentinelAAD and writeString of
    internal/vaultcrypto/crypto.go and resolvedConfigETag of internal/storage/mysqlstore/machine.go. */
module Encoding {

  const UINT32_LIMIT: nat := 0x1_0000_0000
  const UINT64_LIMIT: nat := 0x1_0000_0000_0000_0000

  function Power256(width: nat): nat {
    if width == 0 then 1 else 256 * Power256(width - 1)
  }

  /** A number truncated to `width` bytes, big-endian. */
  function BigEndian(n: nat, width: nat): (s: string)
    ensures |s| == width
  {
    if width == 0 then "" else BigEndian(n / 256, width - 1) + [(n % 256) as char]
  }

  function Uint32(n: nat): (s: string)
    ensures |s| == 4
  {
    BigEndian(n, 4)
  }

  function Uint64(n: nat): (s: string)
    ensures |s| == 8
  {
    BigEndian(n, 8)
  }

  /** writeString: the length as uint32(len(value)), then the bytes. */
  function Prefixed(value: string): string {
    Uint32(|value|) + value
  }

  lemma {:induction false} BigEndianInjective(m: nat, n: nat, width: nat)
    requires m < Power256(width) && n < Power256(width)
    requires BigEndian(m, width) == BigEndian(n, width)
    ensures m == n
  {
    if width != 0 {
      var a, b := BigEndian(m / 256, width - 1), BigEndian(n / 256, width - 1);
      assert (a + [(m % 256) as char])[width - 1] == (b + [(n % 256) as char])[width - 1];
      assert a == (a + [(m % 256) as char])[..width - 1] == (b + [(n % 256) as char])[..width - 1] == b;
      BigEndianInjective(m / 256, n / 256, width - 1);
    }
  }

  lemma Widths()
    ensures Power256(4) == UINT32_LIMIT && Power256(8) == UINT64_LIMIT
  {
    assert Power256(2) == 0x1_0000;
    assert Power256(4) == 256 * (256 * Power256(2));
    assert Power256(6) == 256 * (256 * Power256(4));
    assert Power256(8) == 256 * (256 * Power256(6));
  }

  /** The text at the front of a concatenation is determined by its length. */
  lemma SplitAt(a: string, x: string, b: string, y: string)
    requires a + x == b + y && |a| == |b|
    ensures a == b && x == y
  {
    assert a == (a + x)[..|a|] && b == (b + y)[..|b|];
    assert x == (a + x)[|a|..] && y == (b + y)[|b|..];
  }

  lemma Uint64Decodes(m: nat, x: string, n: nat, y: string)
    requires m < UINT64_LIMIT && n < UINT64_LIMIT && Uint64(m) + x == Uint64(n) + y
    ensures m == n && x == y
  {
    SplitAt(Uint64(m), x, Uint64(n), y);
    Widths();
    BigEndianInjective(m, n, 8);
  }

  /** A length-prefixed field is read back unambiguously, whatever follows it. */
  lemma PrefixedDecodes(a: string, x: string, b: string, y: string)
    requires |a| < UINT32_LIMIT && |b| < UINT32_LIMIT && Prefixed(a) + x == Prefixed(b) + y
    ensures a == b && x == y
  {
    assert Prefixed(a) + x == Uint32(|a|) + (a + x) && Prefixed(b) + y == Uint32(|b|) + (b + y);
    SplitAt(Uint32(|a|), a + x, Uint32(|b|), b + y);
    Widths();
    BigEndianInjective(|a|, |b|, 4);
    SplitAt(a, x, b, y);
  }

  lemma {:induction false} BigEndianTruncates(n: nat, width: nat)
    ensures BigEndian(n + Power256(width), width) == BigEndian(n, width)
  {
    if width != 0 {
      var p := Power256(width - 1);
      assert (n + 256 * p) / 256 == n / 256 + p && (n + 256 * p) % 256 == n % 256;
      BigEndianTruncates(n / 256, width - 1);
    }
  }

  /** Beyond that length the prefix wraps around, and decoding is ambiguous. */
  lemma LongFieldsCollide(a: string, x: string)
    requires |a| == UINT32_LIMIT
    ensures Prefixed(a) + x == Prefixed("") + (a + x) && a != ""
  {
    hide BigEndian, Power256;
    Widths();
    BigEndianTruncates(0, 4);
    assert Uint32(|a|) == Uint32(0);
  }

  // ----- Additional data of sealed records -----

  datatype Identity =
    | Snapshot(itemId: string, revision: nat)
    | Secret(id: string)
    | Sentinel

  /** What one seal protects: a record's payload, or the data key of that record under the master key. */
  datatype Purpose = Payload(identity: Identity, algorithm: string, keyVersion: string)
                   | DataKey(identity: Identity, algorithm: string, keyVersion: string)

  const SNAPSHOT_LABEL := "configra:vault-snapshot:v1\0"
  const SECRET_LABEL := "configra:encrypted-secret:v1\0"
  const SENTINEL_LABEL := "configra:crypto-sentinel:v1"
  const WRAPPED_SUFFIX := "\0wrapped-dek"

  function PayloadData(identity: Identity, algorithm: string, keyVersion: string): string {
    match identity
    case Snapshot(itemId, revision) =>
      SNAPSHOT_LABEL + (Prefixed(itemId) + (Uint64(revision) + (Prefixed(algorithm) + (Prefixed(keyVersion) + ""))))
    case Secret(id) =>
      SECRET_LABEL + (Prefixed(id) + (Prefixed(algorithm) + (Prefixed(keyVersion) + "")))
    case Sentinel => SENTINEL_LABEL
  }

  function AdditionalData(purpose: Purpose): string {
    var data := PayloadData(purpose.identity, purpose.algorithm, purpose.keyVersion);
    if purpose.Payload? then data else data + WRAPPED_SUFFIX
  }

  /** Every field fits its encoding; the sentinel's additional data names no algorithm. */
  predicate Encodable(purpose: Purpose) {
    && |purpose.algorithm| < UINT32_LIMIT && |purpose.keyVersion| < UINT32_LIMIT
    && match purpose.identity
       case Snapshot(itemId, revision) => |itemId| < UINT32_LIMIT && revision < UINT64_LIMIT
       case Secret(id) => |id| < UINT32_LIMIT
       case Sentinel => purpose.algorithm == "" && purpose.keyVersion == ""
  }

  lemma SnapshotDecodes(p: Purpose, x: string, q: Purpose, y: string)
    requires Encodable(p) && Encodable(q) && p.identity.Snapshot? && q.identity.Snapshot?
    requires PayloadData(p.identity, p.algorithm, p.keyVersion) + x
             == PayloadData(q.identity, q.algorithm, q.keyVersion) + y
    ensures p.identity == q.identity && p.algorithm == q.algorithm && p.keyVersion == q.keyVersion && x == y
  {
    hide Prefixed, Uint64;
    var i, j := p.identity, q.identity;
    var p3, q3 := Prefixed(p.keyVersion) + x, Prefixed(q.keyVersion) + y;
    var p2, q2 := Prefixed(p.algorithm) + p3, Prefixed(q.algorithm) + q3;
    var p1, q1 := Uint64(i.revision) + p2, Uint64(j.revision) + q2;
    assert PayloadData(i, p.algorithm, p.keyVersion) + x == SNAPSHOT_LABEL + (Prefixed(i.itemId) + p1);
    assert PayloadData(j, q.algorithm, q.keyVersion) + y == SNAPSHOT_LABEL + (Prefixed(j.itemId) + q1);
    SplitAt(SNAPSHOT_LABEL, Prefixed(i.itemId) + p1, SNAPSHOT_LABEL, Prefixed(j.itemId) + q1);
    PrefixedDecodes(i.itemId, p1, j.itemId, q1);
    Uint64Decodes(i.revision, p2, j.revision, q2);
    PrefixedDecodes(p.algorithm, p3, q.algorithm, q3);
    PrefixedDecodes(p.keyVersion, x, q.keyVersion, y);
  }

  lemma SecretDecodes(p: Purpose, x: string, q: Purpose, y: string)
    requires Encodable(p) && Encodable(q) && p.identity.Secret? && q.identity.Secret?
    requires PayloadData(p.identity, p.algorithm, p.keyVersion) + x
             == PayloadData(q.identity, q.algorithm, q.keyVersion) + y
    ensures p.identity == q.identity && p.algorithm == q.algorithm && p.keyVersion == q.keyVersion && x == y
  {
    hide Prefixed;
    var i, j := p.identity, q.identity;
    var p2, q2 := Prefixed(p.keyVersion) + x, Prefixed(q.keyVersion) + y;
    var p1, q1 := Prefixed(p.algorithm) + p2, Prefixed(q.algorithm) + q2;
    assert PayloadData(i, p.algorithm, p.keyVersion) + x == SECRET_LABEL + (Prefixed(i.id) + p1);
    assert PayloadData(j, q.algorithm, q.keyVersion) + y == SECRET_LABEL + (Prefixed(j.id) + q1);
    SplitAt(SECRET_LABEL, Prefixed(i.id) + p1, SECRET_LABEL, Prefixed(j.id) + q1);
    PrefixedDecodes(i.id, p1, j.id, q1);
    PrefixedDecodes(p.algorithm, p2, q.algorithm, q2);
    PrefixedDecodes(p.keyVersion, x, q.keyVersion, y);
  }

  /** The tenth byte tells the three kinds of records apart. */
  lemma KindsDiffer(p: Purpose, q: Purpose)
    requires AdditionalData(p) == AdditionalData(q)
    ensures p.identity.Snapshot? == q.identity.Snapshot? && p.identity.Secret? == q.identity.Secret?
  {
    TenthByte(p);
    TenthByte(q);
  }

  lemma TenthByte(p: Purpose)
    ensures |AdditionalData(p)| > 9
    ensures AdditionalData(p)[9] == match p.identity case Snapshot(_,
                                                                   _) => 'v' case Secret(_) => 'e' case Sentinel => 'c'
  {
    hide Prefixed, Uint64;
  }

  /** No two seals ever share their additional data: neither two records, nor a payload and a data
      key, nor anything and the sentinel. */
  lemma AdditionalDataInjective(p: Purpose, q: Purpose)
    requires Encodable(p) && Encodable(q) && AdditionalData(p) == AdditionalData(q)
    ensures p == q
  {
    hide PayloadData, Encodable;
    KindsDiffer(p, q);
    var x, y := if p.Payload? then "" else WRAPPED_SUFFIX, if q.Payload? then "" else WRAPPED_SUFFIX;
    var a := PayloadData(p.identity, p.algorithm, p.keyVersion);
    var b := PayloadData(q.identity, q.algorithm, q.keyVersion);
    assert a + x == AdditionalData(p) == AdditionalData(q) == b + y;
    match p.identity
    case Snapshot(_, _) => SnapshotDecodes(p, x, q, y);
    case Secret(_) => SecretDecodes(p, x, q, y);
    case Sentinel => SentinelDecodes(p, x, q, y);
    assert |x| != 0 <==> p.DataKey?;
  }

  lemma SentinelDecodes(p: Purpose, x: string, q: Purpose, y: string)
    requires Encodable(p) && Encodable(q) && p.identity.Sentinel? && q.identity.Sentinel?
    requires PayloadData(p.identity, p.algorithm, p.keyVersion) + x
             == PayloadData(q.identity, q.algorithm, q.keyVersion) + y
    ensures p.identity == q.identity && p.algorithm == q.algorithm && p.keyVersion == q.keyVersion && x == y
  {
    SplitAt(SENTINEL_LABEL, x, SENTINEL_LABEL, y);
  }
}
