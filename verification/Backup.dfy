/**
  Backup and re-import: the payload inside the envelopes, sealing a backup to a recovery key, opening
  a re-wrapped one with the ephemeral key. Key encapsulation, authenticated encryption and the payload
  serialiser are arbitrary functions; the layouts around them are not.
 */
module Backup {
  import opened Wrappers
  import opened Bytes
  import opened Crypto
  import opened Envelope
  import opened Keystore
  import opened Restore

  const PAYLOAD_FORMAT_VERSION: u16 := 1
  const RECOVERY_KEY_ID_LEN: nat := 16

  type kemct = b: bytes | |b| == ML_KEM_1024_CIPHERTEXT_LEN witness seq(ML_KEM_1024_CIPHERTEXT_LEN, _ => 0)

  /**
    `encapsulate(key, m)` is None for a key that does not decode; `encrypt` and `decrypt` take key,
    nonce, associated data and message.
   */
  datatype KemDem = KemDem(
    encapsulate: (bytes, bytes32) -> Option<(kemct, bytes32)>,
    decapsulate: (bytes, bytes) -> bytes32,
    encrypt: (bytes32, bytes, bytes, bytes) -> Option<bytes>,
    decrypt: (bytes32, bytes, bytes, bytes) -> Option<bytes>)

  // ---------------------------------------------------------------- the payload

  function PayloadMagic(): (m: bytes)
    ensures |m| == 8
  {
    Ascii("2DRIGV1\0")
  }

  /** The deterministic serialiser; `deserialise` also says how many bytes it consumed. */
  datatype PayloadCodec = PayloadCodec(
    serialise: RestoreIngressData -> Option<bytes>,
    deserialise: bytes -> Option<(RestoreIngressData, nat)>)

  function PayloadFrame(cbor: bytes): bytes {
    PayloadMagic() + (BE(2, PAYLOAD_FORMAT_VERSION) + cbor)
  }

  /** Magic and version before anything is decoded, then one value and nothing after it. */
  function ParsedPayload(c: PayloadCodec, payload: bytes): Result<RestoreIngressData, BackupError> {
    if |payload| < 10 then Err(Truncated)
    else if payload[..8] != PayloadMagic() then Err(BadMagic)
    else if FromBE(payload[8..10]) != PAYLOAD_FORMAT_VERSION then Err(UnsupportedVersion)
    else match (c.deserialise)(payload[10..])
         case None => Err(Serialization)
         case Some((data, consumed)) => if consumed == |payload| - 10 then Ok(data) else Err(Truncated)
  }

  method ParseRestoreIngress(c: PayloadCodec, payload: bytes) returns (r: Result<RestoreIngressData, BackupError>)
    ensures r == ParsedPayload(c, payload)
  {
    hide FromBE;
    if |payload| < |PayloadMagic()| + 2 {
      return Err(Truncated);
    }
    if payload[..|PayloadMagic()|] != PayloadMagic() {
      return Err(BadMagic);
    }
    if FromBE(payload[8..10]) != PAYLOAD_FORMAT_VERSION {
      return Err(UnsupportedVersion);
    }
    var decoded := (c.deserialise)(payload[10..]);
    if decoded.None? {
      return Err(Serialization);
    }
    if decoded.value.1 != |payload| - 10 {
      return Err(Truncated);
    }
    r := Ok(decoded.value.0);
  }

  lemma {:induction false} PayloadFrameParts(cbor: bytes)
    ensures var f := PayloadFrame(cbor);
            |f| == 10 + |cbor| && f[..8] == PayloadMagic() && FromBE(f[8..10]) == PAYLOAD_FORMAT_VERSION
                && f[10..] == cbor
  {
    hide BE, FromBE;
    Pow256Values();
    FromBEOfBE(2, PAYLOAD_FORMAT_VERSION);
    assert PayloadFrame(cbor)[8..10] == BE(2, PAYLOAD_FORMAT_VERSION);
  }

  /** The restorable part of a body, with the given entries. */
  function ExportData(b: KeystoreBody, entries: seq<KeyEntry>): RestoreIngressData {
    RestoreIngressData(
      RestoreConfigSubset(b.config.twodChainId, b.config.environmentIdentifier, b.config.adminAuthorityPk,
                          b.config.recoveryAuthorityPk, b.config.monotonicTreasuryConfigVersion,
                          b.config.authorityEpoch),
      entries, b.counters, b.faucet, b.strictRecoveryCounter, b.audit.records)
  }

  /**
    A payload is built exactly when the body has every ref and the serialiser's output reads back as
    one whole value; it then carries the body's entries in the refs' order.
   */
  method BuildRestoreIngressPayload(c: PayloadCodec, body: KeystoreBody, ordered: seq<bytes32>)
    returns (r: Result<bytes, BackupError>)
    ensures r.Ok? ==> exists entries ::
              && Refs(entries) == ordered && (forall e | e in entries :: e in body.entries)
              && (c.serialise)(ExportData(body, entries)).Some?
              && r.value == PayloadFrame((c.serialise)(ExportData(body, entries)).value)
    ensures r.Ok? ==> ParsedPayload(c, r.value).Ok?
    ensures r.Ok? ==> forall ref | ref in ordered :: ref in Refs(body.entries)
    ensures (forall ref | ref in ordered :: ref in Refs(body.entries)) && RoundTrips(c) ==> r.Ok?
  {
    hide ParsedPayload, PayloadFrame, ExportData;
    var entries := PayloadEntries(body, ordered);
    if entries.None? {
      return Err(Serialization);
    }
    var data := ExportData(body, entries.value);
    var cbor := (c.serialise)(data);
    if cbor.None? {
      return Err(Serialization);
    }
    var out := PayloadFrame(cbor.value);
    var check := ParseRestoreIngress(c, out);
    if RoundTrips(c) {
      PayloadReadsBack(c, data);
    }
    if check.Err? {
      return Err(check.error);
    }
    r := Ok(out);
  }

  /** What a serialiser is for. */
  ghost predicate RoundTrips(c: PayloadCodec) {
    forall d :: (c.serialise)(d).Some?
                && (c.deserialise)((c.serialise)(d).value) == Some((d, |(c.serialise)(d).value|))
  }

  lemma {:induction false} PayloadReadsBack(c: PayloadCodec, d: RestoreIngressData)
    requires RoundTrips(c)
    ensures (c.serialise)(d).Some? && ParsedPayload(c, PayloadFrame((c.serialise)(d).value)) == Ok(d)
  {
    hide PayloadFrame, FromBE;
    PayloadFrameParts((c.serialise)(d).value);
  }

  // ---------------------------------------------------------------- sealing a backup

  function BackupKdfDomain(): bytes {
    Ascii("2d-hsm-agent-backup-v1-key")
  }

  function RecoveryKeyIdDomain(): bytes {
    Ascii("2d-hsm-agent-backup-v1-") + Ascii("recovery-key-id")
  }

  /** The label of the key that a backup is sealed to. */
  function RecoveryKeyId(p: Primitives, encapsKey: bytes): (id: bytes)
    ensures |id| == RECOVERY_KEY_ID_LEN
  {
    (p.sha3)(RecoveryKeyIdDomain() + encapsKey)[..RECOVERY_KEY_ID_LEN]
  }

  function BackupKey(p: Primitives, shared: bytes32): bytes32 {
    (p.sha3)(BackupKdfDomain() + shared)
  }

  /** What sealing yields: the first reason to refuse, or the framed header and ciphertext. */
  function SealedBackup(p: Primitives, c: KemDem, encapsKey: bytes, keyId: bytes, chainId: u64, env: bytes,
                        manifest: bytes, payload: bytes, draw: Option<bytes32>): Result<bytes, BackupError>
  {
    if draw.None? then Err(Csprng)
    else if |encapsKey| != ML_KEM_1024_ENCAPS_KEY_LEN then Err(InvalidEncapsKeyLen)
    else match (c.encapsulate)(encapsKey, draw.value)
         case None => Err(InvalidEncapsKey)
         case Some((ct, shared)) =>
           var f := BackupFields(keyId, chainId, env, ct, manifest, seq(NONCE_LEN, _ => 0));
           if !BackupFits(f) then Err(FieldTooLong)
           else match (c.encrypt)(BackupKey(p, shared), f.nonce, BackupHeader(f), payload)
                case None => Err(Encrypt)
                case Some(dem) => if |dem| > U32_MAX then Err(FieldTooLong) else Ok(BackupBlob(f, dem))
  }

  /** The re-parse of the finished blob never fires: nothing but the reasons above makes sealing fail. */
  method SealBackupBlob(p: Primitives, c: KemDem, encapsKey: bytes, keyId: bytes, chainId: u64, env: bytes,
                        manifest: bytes, payload: bytes, draw: Option<bytes32>) returns (r: Result<bytes, BackupError>)
    ensures r == SealedBackup(p, c, encapsKey, keyId, chainId, env, manifest, payload, draw)
  {
    hide BackupHeader, Lp, BackupKey;
    if draw.None? {
      return Err(Csprng);
    }
    if |encapsKey| != ML_KEM_1024_ENCAPS_KEY_LEN {
      return Err(InvalidEncapsKeyLen);
    }
    var wrapped := (c.encapsulate)(encapsKey, draw.value);
    if wrapped.None? {
      return Err(InvalidEncapsKey);
    }
    var (ct, shared) := wrapped.value;
    var f := BackupFields(keyId, chainId, env, ct, manifest, seq(NONCE_LEN, _ => 0));
    var header :- BuildHeader(f);
    var dem := (c.encrypt)(BackupKey(p, shared), f.nonce, header, payload);
    if dem.None? {
      return Err(Encrypt);
    }
    var blob :- PutLp32(header, dem.value);
    var check := StrictParse(blob);
    assert check == Ok(ParsedBackup(f, BackupHeader(f), dem.value));
    r := if check.Ok? then Ok(blob) else Err(Truncated);
  }

  /** The key id in a blob's header, if the blob parses. */
  ghost function KeyIdOf(blob: bytes): Option<bytes> {
    match WantedBackup(blob)
    case None => None
    case Some((f, _)) => Some(f.recoveryKeyId)
  }

  method BackupRecoveryKeyId(blob: bytes) returns (r: Result<bytes, BackupError>)
    ensures r.Ok? <==> KeyIdOf(blob).Some?
    ensures r.Ok? ==> r.value == KeyIdOf(blob).value
  {
    hide BackupHeader, BackupBlob, BackupFits;
    var parsed := StrictParse(blob);
    ghost var want := WantedBackup(blob);
    if want.Some? {
      assert parsed == Ok(ParsedBackup(want.value.0, BackupHeader(want.value.0), want.value.1));
    }
    if parsed.Err? {
      return Err(parsed.error);
    }
    var f, dem := parsed.value.fields, parsed.value.dem;
    assert parsed == Ok(ParsedBackup(f, BackupHeader(f), dem));
    assert BackupFits(f) && |dem| <= U32_MAX && blob == BackupBlob(f, dem);
    assert want == Some((f, dem));
    r := Ok(f.recoveryKeyId);
  }

  /** Sealing under a key id, then asking the blob for its key id, gives that id back. */
  lemma {:induction false} SealedKeyId(p: Primitives, c: KemDem, encapsKey: bytes, keyId: bytes, chainId: u64,
      env: bytes, manifest: bytes, payload: bytes, draw: Option<bytes32>)
    requires SealedBackup(p, c, encapsKey, keyId, chainId, env, manifest, payload, draw).Ok?
    ensures KeyIdOf(SealedBackup(p, c, encapsKey, keyId, chainId, env, manifest, payload, draw).value) == Some(keyId)
  {
    hide BackupHeader, BackupBlob, BackupKey;
    var (ct, shared) := (c.encapsulate)(encapsKey, draw.value).value;
    var f := BackupFields(keyId, chainId, env, ct, manifest, seq(NONCE_LEN, _ => 0));
    var dem := (c.encrypt)(BackupKey(p, shared), f.nonce, BackupHeader(f), payload).value;
    assert WantedBackup(BackupBlob(f, dem)) == Some((f, dem));
  }

  // ---------------------------------------------------------------- opening a re-wrapped backup

  function IngressKdfDomain(): bytes {
    Ascii("2d-hsm-agent-restore-ingress-v1\0")
  }

  function IngressKey(p: Primitives, shared: bytes32): bytes32 {
    (p.sha3)(IngressKdfDomain() + shared)
  }

  /** The payload and the authenticated fields, if the envelope parses and its tag verifies. */
  ghost function OpenedIngress(p: Primitives, c: KemDem, dk: bytes, blob: bytes)
    : Option<(OpenedRestoreIngress, bytes)>
  {
    match WantedIngress(blob)
    case None => None
    case Some((f, dem)) =>
      match (c.decrypt)(IngressKey(p, (c.decapsulate)(dk, f.kemCt)), f.nonce, IngressHeader(f), dem)
      case None => None
      case Some(payload) =>
        Some((OpenedRestoreIngress(f.destMeasurement, f.chainId, f.environmentIdentifier, f.manifestHash,
                                   f.originalBackupDigest), payload))
  }

  method OpenRestoreIngressEnvelope(p: Primitives, c: KemDem, dk: bytes, blob: bytes)
    returns (r: Result<(OpenedRestoreIngress, bytes), BackupError>)
    ensures r.Ok? <==> OpenedIngress(p, c, dk, blob).Some?
    ensures r.Ok? ==> r.value == OpenedIngress(p, c, dk, blob).value
    ensures r == Err(Decrypt) <==> WantedIngress(blob).Some? && OpenedIngress(p, c, dk, blob).None?
  {
    hide IngressHeader, IngressBlob, IngressKey;
    var parsed := StrictParseIngressEnvelope(blob);
    ghost var want := WantedIngress(blob);
    if want.Some? {
      assert parsed == Ok(ParsedIngress(want.value.0, IngressHeader(want.value.0), want.value.1));
    }
    if parsed.Err? {
      return Err(parsed.error);
    }
    var f := parsed.value.fields;
    assert parsed == Ok(ParsedIngress(f, IngressHeader(f), parsed.value.dem));
    assert IngressFits(f) && |parsed.value.dem| <= U32_MAX && blob == IngressBlob(f, parsed.value.dem);
    assert want == Some((f, parsed.value.dem));
    var payload := (c.decrypt)(IngressKey(p, (c.decapsulate)(dk, f.kemCt)), f.nonce, parsed.value.header,
                               parsed.value.dem);
    if payload.None? {
      return Err(Decrypt);
    }
    r := Ok((OpenedRestoreIngress(f.destMeasurement, f.chainId, f.environmentIdentifier, f.manifestHash,
                                  f.originalBackupDigest), payload.value));
  }

  /** `blob` carries `payload`, encrypted under its own header to the holder of `dk`. */
  ghost predicate Wrapped(p: Primitives, c: KemDem, dk: bytes, f: IngressFields, payload: bytes, blob: bytes) {
    var key := IngressKey(p, (c.decapsulate)(dk, f.kemCt));
    var dem := (c.encrypt)(key, f.nonce, IngressHeader(f), payload);
    && IngressFits(f) && dem.Some? && |dem.value| <= U32_MAX
    && (c.decrypt)(key, f.nonce, IngressHeader(f), dem.value) == Some(payload) && blob == IngressBlob(f, dem.value)
  }

  /** What was encrypted under an envelope's own header opens to the same payload and fields. */
  lemma {:induction false} WrapThenOpen(p: Primitives, c: KemDem, dk: bytes, f: IngressFields, payload: bytes,
      blob: bytes)
    requires Wrapped(p, c, dk, f, payload, blob)
    ensures OpenedIngress(p, c, dk, blob)
            == Some((OpenedRestoreIngress(f.destMeasurement, f.chainId, f.environmentIdentifier, f.manifestHash,
                                          f.originalBackupDigest), payload))
  {
    hide IngressHeader, IngressBlob, IngressKey;
    var key := IngressKey(p, (c.decapsulate)(dk, f.kemCt));
    var dem := (c.encrypt)(key, f.nonce, IngressHeader(f), payload).value;
    assert WantedIngress(blob) == Some((f, dem));
  }

  // ---------------------------------------------------------------- what is exported can be restored

  /**
    A backup of the refs a body has among `exported`, re-wrapped for an enclave of the same chain and
    environment, is admitted there for every selector that names the same refs.
   */
  lemma {:induction false} ExportIsAdmissible(p: Primitives, body: KeystoreBody, exported: seq<bytes32>,
      entries: seq<KeyEntry>, blob: bytes, requested: seq<bytes32>, measurement: bytes)
    requires Refs(entries) == SelectedKeyRefs(body.entries, exported)
    requires forall y: bytes32 :: y in requested <==> y in exported && y in Refs(body.entries)
    ensures var manifest := ManifestOf(SelectedKeyRefs(body.entries, exported));
            var o := OpenedRestoreIngress(measurement, body.config.twodChainId, body.config.environmentIdentifier,
                                          ManifestHash(p, manifest), OriginalBackupDigest(p, blob));
            Admissible(p, o, ExportData(body, entries), blob, requested, measurement, body.config.twodChainId,
                       body.config.environmentIdentifier)
    ensures forall ref | ref in SelectedKeyRefs(body.entries, exported) :: ref in Refs(body.entries)
  {
    hide ManifestOf;
    SelectionIsExportable(body.entries, exported);
    forall y: bytes32 ensures y in requested <==> y in Refs(entries) {
      SelectionIsIntersection(body.entries, exported, y);
    }
  }
}
