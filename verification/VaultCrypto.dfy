/** Envelope encryption over an ideal authenticated cipher: every record has its own data key,
    wrapped under the master key. Models encrypt, decrypt, wrapDEK, unwrapDEK, rewrap and the
    sentinel of internal/vaultcrypto/crypto.go. */
module VaultCrypto {
  import opened Ordering
  import opened Encoding

  const AES_256_GCM := "AES-256-GCM"
  const LOCAL_KEY_VERSION := "local-v1"
  const DEK_SIZE: nat := 32
  const NONCE_SIZE: nat := 12
  const SENTINEL_TEXT := "configra-crypto-sentinel-v1"

  datatype Result<+T> = Ok(value: T) | Err(error: Error)
  datatype Error = Integrity | InvalidIdentity

  /** An ideal cipher text remembers what it was sealed from; bytes nobody sealed never open. */
  datatype Cipher = Sealed(key: string, nonce: string, data: string, plain: string) | Forged(bytes: string)

  /** cipher.AEAD.Open. */
  function Open(key: string, nonce: string, cipher: Cipher, data: string): Option<string> {
    if cipher.Sealed? && cipher.key == key && cipher.nonce == nonce && cipher.data == data
    then Some(cipher.plain) else None
  }

  /** A stored wrapped key is a nonce followed by a cipher text, unless it is too short to be one. */
  datatype WrappedKey = TooShort | Wrapped(nonce: string, cipher: Cipher)

  datatype Encrypted = Encrypted(algorithm: string, keyVersion: string, nonce: string, cipher: Cipher,
                                 wrapped: WrappedKey)

  datatype EncryptedSentinel = EncryptedSentinel(algorithm: string, keyVersion: string, nonce: string, cipher: Cipher)

  /** The random bytes one encryption draws. */
  datatype Randomness = Randomness(dek: string, nonce: string, wrapNonce: string) {
    predicate Valid() {
      |dek| == DEK_SIZE && |nonce| == NONCE_SIZE && |wrapNonce| == NONCE_SIZE
    }
  }

  /** validateIdentity, and the check on secret names. */
  predicate ValidIdentity(identity: Identity) {
    match identity
    case Snapshot(itemId, revision) => itemId != "" && revision != 0
    case Secret(id) => id != "" && |id| <= 255
    case Sentinel => false
  }

  function PayloadAad(identity: Identity, e: Encrypted): string {
    AdditionalData(Payload(identity, e.algorithm, e.keyVersion))
  }

  function DataKeyAad(identity: Identity, e: Encrypted): string {
    AdditionalData(DataKey(identity, e.algorithm, e.keyVersion))
  }

  function WrapDek(master: string, dek: string, nonce: string, aad: string): WrappedKey {
    Wrapped(nonce, Sealed(master, nonce, aad, dek))
  }

  function Encrypt(master: string, identity: Identity, plain: string, random: Randomness): Result<Encrypted> {
    if !ValidIdentity(identity) then Err(InvalidIdentity)
    else
      var payload := AdditionalData(Payload(identity, AES_256_GCM, LOCAL_KEY_VERSION));
      var dataKey := AdditionalData(DataKey(identity, AES_256_GCM, LOCAL_KEY_VERSION));
      Ok(Encrypted(AES_256_GCM, LOCAL_KEY_VERSION, random.nonce,
                   Sealed(random.dek, random.nonce, payload, plain),
                   WrapDek(master, random.dek, random.wrapNonce, dataKey)))
  }

  function UnwrapDek(master: string, identity: Identity, e: Encrypted): Result<string> {
    if e.algorithm != AES_256_GCM || e.keyVersion != LOCAL_KEY_VERSION || e.wrapped.TooShort? then Err(Integrity)
    else
      match Open(master, e.wrapped.nonce, e.wrapped.cipher, DataKeyAad(identity, e))
      case None => Err(Integrity)
      case Some(dek) => if |dek| != DEK_SIZE then Err(Integrity) else Ok(dek)
  }

  function DecryptPayload(identity: Identity, e: Encrypted, dek: string): Result<string> {
    if |e.nonce| != NONCE_SIZE then Err(Integrity)
    else
      match Open(dek, e.nonce, e.cipher, PayloadAad(identity, e))
      case None => Err(Integrity)
      case Some(plain) => Ok(plain)
  }

  function Decrypt(master: string, identity: Identity, e: Encrypted): Result<string> {
    if !ValidIdentity(identity) then Err(Integrity)
    else
      match UnwrapDek(master, identity, e)
      case Err(error) => Err(error)
      case Ok(dek) => DecryptPayload(identity, e, dek)
  }

  /** The new wrapped key; the record itself is authenticated first. */
  function Rewrap(master: string, identity: Identity, e: Encrypted, next: string,
                  wrapNonce: string): Result<WrappedKey> {
    if !ValidIdentity(identity) then Err(Integrity)
    else
      match UnwrapDek(master, identity, e)
      case Err(error) => Err(error)
      case Ok(dek) =>
        match DecryptPayload(identity, e, dek)
        case Err(error) => Err(error)
        case Ok(_) => Ok(WrapDek(next, dek, wrapNonce, DataKeyAad(identity, e)))
  }

  function CreateSentinel(master: string, nonce: string): EncryptedSentinel {
    EncryptedSentinel(AES_256_GCM, LOCAL_KEY_VERSION, nonce,
                      Sealed(master, nonce, AdditionalData(Payload(Sentinel, "", "")), SENTINEL_TEXT))
  }

  predicate VerifySentinel(master: string, s: EncryptedSentinel) {
    && s.algorithm == AES_256_GCM && s.keyVersion == LOCAL_KEY_VERSION && |s.nonce| == NONCE_SIZE
    && Open(master, s.nonce, s.cipher, AdditionalData(Payload(Sentinel, "", ""))) == Some(SENTINEL_TEXT)
  }

  // ----- What the envelope guarantees -----

  /** Whatever is encrypted for a valid identity decrypts under the same key and identity. */
  lemma EncryptDecrypts(master: string, identity: Identity, plain: string, random: Randomness)
    requires random.Valid()
    ensures Encrypt(master, identity, plain, random).Ok? <==> ValidIdentity(identity)
    ensures ValidIdentity(identity) ==>
              Decrypt(master, identity, Encrypt(master, identity, plain, random).value) == Ok(plain)
  {
    hide AdditionalData;
  }

  /** Items have an ID and a revision, secrets an ID of up to 255 bytes; the sentinel is encrypted apart. */
  predicate Identified(identity: Identity) {
    match identity
    case Snapshot(itemId, revision) => |itemId| >= 1 && revision >= 1
    case Secret(id) => 1 <= |id| <= 255
    case Sentinel => false
  }

  /** The record was sealed for the identity with a data key that was sealed under the master key, all for this
      purpose, algorithm and key version. */
  ghost predicate SealedAs(master: string, identity: Identity, e: Encrypted, plain: string) {
    && Identified(identity) && e.algorithm == "AES-256-GCM" && e.keyVersion == "local-v1" && |e.nonce| == 12
    && exists dek, nonce | |dek| == 32 ::
         && e.wrapped == Wrapped(nonce, Sealed(master, nonce,
                                               AdditionalData(DataKey(identity, "AES-256-GCM", "local-v1")), dek))
         && e.cipher == Sealed(dek, e.nonce, AdditionalData(Payload(identity, "AES-256-GCM", "local-v1")), plain)
  }

  /** What is encrypted is sealed like that, and exactly what is sealed like that decrypts. */
  lemma DecryptsExactly(master: string, identity: Identity, e: Encrypted, plain: string)
    ensures Decrypt(master, identity, e) == Ok(plain) <==> SealedAs(master, identity, e, plain)
  {
    hide AdditionalData;
  }

  lemma EncryptsExactly(master: string, identity: Identity, plain: string, random: Randomness)
    requires random.Valid()
    ensures Encrypt(master, identity, plain, random).Ok? <==> Identified(identity)
    ensures Identified(identity) ==>
              SealedAs(master, identity, Encrypt(master, identity, plain, random).value, plain)
  {
    hide AdditionalData;
  }

  predicate EncodableIdentity(identity: Identity) {
    match identity
    case Snapshot(itemId, revision) => |itemId| < UINT32_LIMIT && revision < UINT64_LIMIT
    case Secret(id) => |id| < UINT32_LIMIT
    case Sentinel => false
  }

  /** A record opens under one key and for one identity only. */
  lemma DecryptsOnce(k1: string, i1: Identity, e: Encrypted, k2: string, i2: Identity)
    requires Decrypt(k1, i1, e).Ok? && Decrypt(k2, i2, e).Ok? && EncodableIdentity(i1) && EncodableIdentity(i2)
    ensures k1 == k2 && i1 == i2
  {
    hide AdditionalData;
    AdditionalDataInjective(DataKey(i1, e.algorithm, e.keyVersion), DataKey(i2, e.algorithm, e.keyVersion));
  }

  /** Putting one record's wrapped key next to another's payload never decrypts. */
  lemma SplicedKeyFails(k1: string, i1: Identity, e1: Encrypted, k2: string, i2: Identity, e2: Encrypted, k: string,
                        i: Identity)
    requires Decrypt(k1, i1, e1).Ok? && Decrypt(k2, i2, e2).Ok? && i1 != i2
    requires EncodableIdentity(i1) && EncodableIdentity(i2) && EncodableIdentity(i)
    ensures Decrypt(k, i, e1.(wrapped := e2.wrapped)).Err?
  {
    hide AdditionalData;
    if Decrypt(k, i, e1.(wrapped := e2.wrapped)).Ok? {
      AdditionalDataInjective(DataKey(i, e1.algorithm, e1.keyVersion), DataKey(i2, e2.algorithm, e2.keyVersion));
      AdditionalDataInjective(Payload(i, e1.algorithm, e1.keyVersion), Payload(i1, e1.algorithm, e1.keyVersion));
    }
  }

  /** A wrapped data key is never accepted where a payload is expected. */
  lemma KeyIsNoPayload(k: string, i: Identity, e: Encrypted, j: Identity, f: Encrypted, dek: string)
    requires UnwrapDek(k, i, e).Ok? && EncodableIdentity(i) && EncodableIdentity(j)
    requires |f.algorithm| < UINT32_LIMIT && |f.keyVersion| < UINT32_LIMIT
    ensures DecryptPayload(j, f.(cipher := e.wrapped.cipher), dek).Err?
  {
    hide AdditionalData;
    if DecryptPayload(j, f.(cipher := e.wrapped.cipher), dek).Ok? {
      AdditionalDataInjective(DataKey(i, e.algorithm, e.keyVersion), Payload(j, f.algorithm, f.keyVersion));
    }
  }

  /** Rewrapping succeeds exactly on records that decrypt, and then the record with its new wrapped
      key decrypts under the next key, and only under it, to the same plain text. */
  lemma RewrapPreserves(master: string, identity: Identity, e: Encrypted, next: string, wrapNonce: string)
    requires |wrapNonce| == NONCE_SIZE
    ensures var r := Rewrap(master, identity, e, next, wrapNonce);
            && (r.Ok? <==> Decrypt(master, identity, e).Ok?)
            && (r.Ok? ==> forall k :: Decrypt(k, identity, e.(wrapped := r.value)) ==
                                      if k == next then Decrypt(master, identity, e) else Err(Integrity))
  {
    hide AdditionalData;
  }

  /** A sentinel tells its key from every other. */
  lemma SentinelIdentifiesKey(master: string, nonce: string, other: string)
    requires |nonce| == NONCE_SIZE
    ensures VerifySentinel(other, CreateSentinel(master, nonce)) <==> other == master
  {
    hide AdditionalData;
  }

  lemma OneSentinelKey(k1: string, k2: string, s: EncryptedSentinel)
    requires VerifySentinel(k1, s) && VerifySentinel(k2, s)
    ensures k1 == k2
  {
    hide AdditionalData;
  }
}
