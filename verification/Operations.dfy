/**
  Committed operations from request to emission: verify the capability, build a candidate, seal,
  commit to the anchor, swap, emit. Key generation and restore are followed end to end. What a handler
  returns is all that it emits.
 */
module Operations {
  import opened Wrappers
  import opened Bytes
  import opened Cbor
  import opened Crypto
  import opened Anchor
  import A = AntiRollback
  import opened Backup
  import opened Binding
  import Boot
  import opened Capabilities
  import C = Commit
  import opened Emit
  import Envelope
  import opened Keygen
  import opened Keystore
  import opened MapAccess
  import opened Marks
  import opened Positional
  import R = Restore
  import opened Sealing

  /** The error band that a host can observe. */
  datatype AgentError =
    | Malformed
    | KeyPurposeMismatch
    | CapabilityRejected
    | CapExceeded
    | NotConfigured
    | SealFailed

  /** A decoded command: the capability map, the request id and the payload map. */
  datatype AgentRequest = AgentRequest(capability: Option<entries>, requestId: bytes, payload: Option<entries>)

  /** What the enclave proposes for a candidate. */
  function CommitFor(p: Primitives, candidate: KeystoreBody, requestId: bytes, nonce: bytes32): Proposal {
    Proposal(nonce, candidate.freshnessEpoch, candidate.structuralVersion, LocalDigest(p, candidate), requestId)
  }

  function CommitFrame(p: Primitives, candidate: KeystoreBody, requestId: bytes, nonce: bytes32): bytes {
    C.RequestFrame(C.RequestFor(CommitFor(p, candidate, requestId, nonce), candidate.config))
  }

  /** The round trip carried the candidate's request, and the answer is the anchor's signed record of it. */
  ghost predicate Committed(p: Primitives, trip: C.RoundTrip, candidate: KeystoreBody, requestId: bytes,
                            nonce: bytes32)
  {
    && trip.frame == CommitFrame(p, candidate, requestId, nonce) && trip.answer.Ok?
    && C.Acknowledged(p, trip.answer.value, CommitFor(p, candidate, requestId, nonce), candidate.config)
  }

  /** What the channel saw of a commit: this one request and nothing else. */
  ghost predicate AskedOnce(p: Primitives, before: seq<C.RoundTrip>, after: seq<C.RoundTrip>, candidate: KeystoreBody,
                            requestId: bytes, nonce: bytes32)
  {
    && |after| == |before| + 1 && before <= after
    && after[|before|].frame == CommitFrame(p, candidate, requestId, nonce)
  }

  lemma {:induction false} ConfigFits(b: KeystoreBody)
    requires ValidBody(b)
    ensures |b.config.environmentIdentifier| <= 64 && ValidUtf8(b.config.environmentIdentifier)
  {
    EnvironmentIsUtf8(b.config.environmentIdentifier);
  }

  /** After an operation the capability that authorised it is dead, whatever it is presented for. */
  lemma {:induction false} SpentCapability(p: Primitives, c: Capability, before: KeystoreBody, after: KeystoreBody,
      opcode: u8, requestId: bytes)
    requires CapVerdict(p, Some(c), opcode, requestId, before.config, before.counters).Ok?
    requires A.OperationCandidate(before, CapLane(c, before.config), c.counter, after) && after.config == before.config
    ensures forall opcode', requestId' :: CapVerdict(p, Some(c), opcode', requestId', after.config, after.counters).Err?
  {
    hide ValidBody, CapVerdict, AdvancedCounters, Highest;
    forall opcode', requestId' ensures CapVerdict(p, Some(c), opcode', requestId', after.config, after.counters).Err? {
      AcceptedOnce(p, c, opcode, requestId, before.config, before.counters, after.counters, opcode', requestId');
    }
  }

  // ---------------------------------------------------------------- admitting a request

  function ParsedCapability(q: AgentRequest): Option<Capability> {
    if q.capability.None? then None
    else match ParseCapability(q.capability.value) case Ok(c) => Some(c) case Err(_) => None
  }

  /** The capability seam: no capability and every authorisation failure look the same. */
  function Authorised(p: Primitives, q: AgentRequest, opcode: u8, b: KeystoreBody): Result<VerifiedCapability,
      AgentError> {
    if q.capability.None? then Err(CapabilityRejected)
    else match CapVerdict(p, ParsedCapability(q), opcode, q.requestId, b.config, b.counters)
         case Ok(v) => Ok(v)
         case Err(CapMalformed) => Err(AgentError.Malformed)
         case Err(CapRejected) => Err(CapabilityRejected)
  }

  method Authorise(p: Primitives, q: AgentRequest, opcode: u8, b: KeystoreBody)
    returns (r: Result<VerifiedCapability, AgentError>)
    ensures r == Authorised(p, q, opcode, b)
  {
    hide ParseCapability, CapVerdict;
    if q.capability.None? {
      return Err(CapabilityRejected);
    }
    var verdict := VerifyCapability(p, q.capability.value, opcode, q.requestId, b.config, b.counters);
    match verdict {
      case Ok(v) => r := Ok(v);
      case Err(CapMalformed) => r := Err(AgentError.Malformed);
      case Err(CapRejected) => r := Err(CapabilityRejected);
    }
  }

  /** A verified capability reports its own lane, counter, purpose and binding. */
  lemma {:induction false} VerdictFields(p: Primitives, q: AgentRequest, opcode: u8, b: KeystoreBody)
    requires Authorised(p, q, opcode, b).Ok?
    ensures ParsedCapability(q).Some? && LegalCapability(ParsedCapability(q).value)
    ensures var c := ParsedCapability(q).value;
            var v := Authorised(p, q, opcode, b).value;
            && CapVerdict(p, Some(c), opcode, q.requestId, b.config, b.counters) == Ok(v)
            && Lane(v.authority, v.scopeClass, v.scopeTarget) == CapLane(c, b.config)
            && v.counter == c.counter && v.keyPurpose == c.keyPurpose && v.payloadBinding == c.payloadBinding
            && v.scopeClass == c.scopeClass && c.requestId == q.requestId && |q.requestId| <= MAX_REQUEST_ID_LEN
  {
    hide ParseCapability, Highest, CapPreimage;
    ParsedCapIsLegal(q.capability.value, ParsedCapability(q).value);
  }

  /** What a key generation may do: the request, if capability and parameters agree on it. */
  function KeygenAdmitted(p: Primitives, q: AgentRequest, b: KeystoreBody)
    : Result<(VerifiedCapability, KeyPurpose, u64), AgentError>
  {
    match Authorised(p, q, OPCODE_GENERATE_KEYS, b)
    case Err(e) => Err(e)
    case Ok(v) =>
      match KeygenRequest(q.payload)
      case None => Err(AgentError.Malformed)
      case Some((purpose, count)) =>
        if v.keyPurpose != PurposeCode(purpose) then Err(KeyPurposeMismatch)
        else if v.payloadBinding != (p.keccak)(KeygenPreimage(q.requestId, PurposeCode(purpose), count))
        then Err(CapabilityRejected)
        else if purpose == AgentFaucetTreasuryK1 && v.scopeClass != 0 then Err(CapabilityRejected)
        else Ok((v, purpose, count))
  }

  method AdmitKeygen(p: Primitives, q: AgentRequest, b: KeystoreBody)
    returns (r: Result<(VerifiedCapability, KeyPurpose, u64), AgentError>)
    ensures r == KeygenAdmitted(p, q, b)
  {
    hide Authorised, KeygenParams, BindingPreimage, MapGet;
    var v :- Authorise(p, q, OPCODE_GENERATE_KEYS, b);
    if q.payload.None? || |q.payload.value| != 2 {
      return Err(AgentError.Malformed);
    }
    var code, count := GetU64(q.payload.value, 1), GetU64(q.payload.value, 2);
    if code.None? || count.None? || (code.value != 1 && code.value != 2) {
      return Err(AgentError.Malformed);
    }
    var purpose := if code.value == 1 then AgentTransferK1 else AgentFaucetTreasuryK1;
    if v.keyPurpose != code.value {
      return Err(KeyPurposeMismatch);
    }
    var params := GenerateKeysCanonicalParams(code.value, count.value);
    var binding := PayloadBinding(p, OPCODE_GENERATE_KEYS, None, q.requestId, params);
    if binding != v.payloadBinding {
      return Err(CapabilityRejected);
    }
    if purpose == AgentFaucetTreasuryK1 && v.scopeClass != 0 {
      return Err(CapabilityRejected);
    }
    r := Ok((v, purpose, count.value));
  }

  function MapKeygenError(e: GenerateKeysError): AgentError {
    match e
    case InvalidCount => AgentError.Malformed
    case TreasuryExists => CapabilityRejected
    case TooMany => CapExceeded
    case Csprng => SealFailed
  }

  // ---------------------------------------------------------------- restore

  datatype RestoreRequest = RestoreRequest(
    ingressEnvelope: bytes,
    originalBackup: bytes,
    requestedRefs: seq<bytes32>,
    recoveryHighWater: R.RecoveryHighWater)

  datatype RestoreTools = RestoreTools(kem: KemDem, codec: PayloadCodec)

  function RestoreEntries(refs: seq<bytes32>, digest: bytes32): entries {
    [(Int(1), Arr(R.RefValues(refs))), (Int(2), Bstr(digest))]
  }

  /** The parameters a restore capability is bound to: the selector and the exact backup. */
  function RestoreParams(refs: seq<bytes32>, digest: bytes32): bytes {
    Encode(MapV(RestoreEntries(refs, digest)))
  }

  method RestoreCanonicalParams(refs: seq<bytes32>, digest: bytes32) returns (out: bytes)
    requires |refs| <= U64_MAX
    ensures out == RestoreParams(refs, digest)
  {
    hide Head, Encode, EncodeEntries, EncodeItems;
    out := PutMapHeader([], 2);
    ghost var base, d := out, [];
    out := PutNat(out, 1);
    out := PutUint(out, 4, |refs|);
    ghost var inner := out;
    EmitNothing(inner);
    ghost var all := R.RefValues(refs);
    ghost var items: seq<Value> := [];
    for i := 0 to |refs|
      invariant out == inner + EncodeItems(items) && items == all[..i]
    {
      out := PutBytes(out, refs[i]);
      items := Element(inner, items, Bstr(refs[i]));
      assert all[..i + 1] == all[..i] + [all[i]];
    }
    assert items == all;
    EncodeArr(base + Encode(Int(1)), all);
    d := Entry(base, d, Int(1), Arr(all));
    out, d := PutBytesEntry(out, base, d, 2, digest);
    assert d == RestoreEntries(refs, digest);
    EncodeMap([], d);
    assert [] + Encode(MapV(d)) == Encode(MapV(d));
  }

  /** One parameter string, one selector and one backup. */
  lemma {:induction false} RestoreParamsInjective(r1: seq<bytes32>, d1: bytes32, r2: seq<bytes32>, d2: bytes32)
    requires |r1| <= U64_MAX && |r2| <= U64_MAX && RestoreParams(r1, d1) == RestoreParams(r2, d2)
    ensures r1 == r2 && d1 == d2
  {
    var es, fs := RestoreEntries(r1, d1), RestoreEntries(r2, d2);
    RestoreSized(r1, d1);
    RestoreSized(r2, d2);
    hide Encode;
    EncodeInjective(MapV(es), MapV(fs));
    assert es[0].1 == fs[0].1 && es[1].1 == fs[1].1;
    forall i | 0 <= i < |r1| ensures r1[i] == r2[i] {
      assert R.RefValues(r1)[i] == R.RefValues(r2)[i];
    }
  }

  lemma {:induction false} RestoreSized(refs: seq<bytes32>, digest: bytes32)
    requires |refs| <= U64_MAX
    ensures Sized(MapV(RestoreEntries(refs, digest)))
  {
    var es := RestoreEntries(refs, digest);
    assert Sized(Arr(R.RefValues(refs)));
    assert SizedEntries(es);
  }

  /** The backup belongs to this keystore's wrapping key and the capability to this very restore. */
  ghost predicate RestoreBound(p: Primitives, q: RestoreRequest, o: R.OpenedRestoreIngress, v: VerifiedCapability,
                               requestId: bytes, b: KeystoreBody)
  {
    && KeyIdOf(q.originalBackup) == Some(RecoveryKeyId(p, b.config.backupRecoveryWrappingPubkey))
    && v.payloadBinding == (p.keccak)(BindingPreimage(OPCODE_RESTORE_BACKUP, None, requestId,
                                                      RestoreParams(q.requestedRefs, o.originalBackupDigest)))
    && R.RecoverySigned(p, q.recoveryHighWater, b.config.twodChainId, b.config.environmentIdentifier, requestId,
                        b.config.recoveryAuthorityPk)
  }

  /** The payload of an opened and admitted envelope, with the authenticated high-water marks. */
  ghost function RestoreInputs(p: Primitives, t: RestoreTools, q: RestoreRequest, v: VerifiedCapability,
                               requestId: bytes, b: KeystoreBody, measurement: bytes, dk: bytes)
    : Option<(R.RestoreIngressData, DecodedMarks)>
  {
    match OpenedIngress(p, t.kem, dk, q.ingressEnvelope)
    case None => None
    case Some((o, payload)) =>
      match ParsedPayload(t.codec, payload)
      case Err(_) => None
      case Ok(data) =>
        if !R.Admissible(p, o, data, q.originalBackup, q.requestedRefs, measurement, b.config.twodChainId,
                         b.config.environmentIdentifier)
           || !RestoreBound(p, q, o, v, requestId, b)
        then None
        else match DecodedMarksPayload(q.recoveryHighWater.marksPayload, MAX_COUNTER_ENTRIES)
             case None => None
             case Some(high) => Some((data, high))
  }

  /** The candidate of a restore, or nothing. */
  ghost function RestoreTarget(p: Primitives, t: RestoreTools, q: RestoreRequest, v: VerifiedCapability,
                               requestId: bytes, b: KeystoreBody, measurement: bytes, dk: bytes): Option<KeystoreBody>
  {
    match RestoreInputs(p, t, q, v, requestId, b, measurement, dk)
    case None => None
    case Some((data, high)) =>
      R.RestoreCandidate(b, data, high, Lane(v.authority, v.scopeClass, v.scopeTarget), v.counter)
  }

  /** `handle_restore_backup`, from the opened request to the candidate. */
  method BuildRestoreTarget(p: Primitives, t: RestoreTools, q: RestoreRequest, v: VerifiedCapability, requestId: bytes,
                            b: KeystoreBody, measurement: bytes, dk: bytes) returns (r: Option<KeystoreBody>)
    requires |q.requestedRefs| <= U64_MAX
    ensures r == RestoreTarget(p, t, q, v, requestId, b, measurement, dk)
  {
    hide OpenedIngress, ParsedPayload, R.Admissible, R.RestoreCandidate, R.RecoverySigned, KeyIdOf, RecoveryKeyId,
        RestoreParams, BindingPreimage;
    var unwrapped := OpenRestoreIngressEnvelope(p, t.kem, dk, q.ingressEnvelope);
    if unwrapped.Err? {
      return None;
    }
    var (o, payload) := unwrapped.value;
    var parsed := ParseRestoreIngress(t.codec, payload);
    if parsed.Err? {
      return None;
    }
    var data := parsed.value;
    var admitted := R.VerifyRestoreIngress(p, o, data, q.originalBackup, q.requestedRefs, measurement,
                                           b.config.twodChainId, b.config.environmentIdentifier);
    if admitted.Err? {
      return None;
    }
    var keyId := BackupRecoveryKeyId(q.originalBackup);
    if keyId.Err? {
      return None;
    }
    if keyId.value != RecoveryKeyId(p, b.config.backupRecoveryWrappingPubkey) {
      return None;
    }
    var params := RestoreCanonicalParams(q.requestedRefs, o.originalBackupDigest);
    var binding := PayloadBinding(p, OPCODE_RESTORE_BACKUP, None, requestId, params);
    if binding != v.payloadBinding {
      return None;
    }
    var high := R.VerifyRecoveryHighWater(p, q.recoveryHighWater, b.config.twodChainId, b.config.environmentIdentifier,
                                          requestId, b.config.recoveryAuthorityPk);
    HighWaterRead(p, q.recoveryHighWater, b, requestId, high);
    if high.Err? {
      return None;
    }
    r := R.BuildRestoreCandidate(b, data, high.value, Lane(v.authority, v.scopeClass, v.scopeTarget), v.counter);
  }

  lemma {:induction false} HighWaterRead(p: Primitives, h: R.RecoveryHighWater, b: KeystoreBody, requestId: bytes,
      r: Result<DecodedMarks, R.RecoveryHighWaterError>)
    requires var signed := R.RecoverySigned(p, h, b.config.twodChainId, b.config.environmentIdentifier, requestId,
                                            b.config.recoveryAuthorityPk);
             forall m :: r == Ok(m) <==> signed && MarksBytes(h.marksPayload, m, MAX_COUNTER_ENTRIES)
    ensures var signed := R.RecoverySigned(p, h, b.config.twodChainId, b.config.environmentIdentifier, requestId,
                                           b.config.recoveryAuthorityPk);
            var d := DecodedMarksPayload(h.marksPayload, MAX_COUNTER_ENTRIES);
            && (r.Ok? <==> signed && d.Some?) && (r.Ok? ==> r.value == d.value)
  {
    hide MarksBytes, R.RecoverySigned;
    var d := DecodedMarksPayload(h.marksPayload, MAX_COUNTER_ENTRIES);
    if d.Some? {
      assert MarksBytes(h.marksPayload, d.value, MAX_COUNTER_ENTRIES);
    }
    if r.Ok? {
      assert MarksBytes(h.marksPayload, r.value, MAX_COUNTER_ENTRIES);
    }
  }

  /**
    Whatever envelope, backup and selector the host supplies: a restore that goes through lowers no
    lane, burns its capability, raises the recovery counter past both sides, holds the marks that the
    recovery authority signed, and keeps chain, environment and anchor.
   */
  lemma {:induction false} RestoreTargetOnlyRaises(p: Primitives, t: RestoreTools, q: RestoreRequest,
      v: VerifiedCapability, requestId: bytes, b: KeystoreBody, measurement: bytes, dk: bytes, lane: Lane)
    requires RestoreTarget(p, t, q, v, requestId, b, measurement, dk).Some?
    ensures var after := RestoreTarget(p, t, q, v, requestId, b, measurement, dk).value;
            var (data, high) := RestoreInputs(p, t, q, v, requestId, b, measurement, dk).value;
            && A.LaneHigh(b, lane) <= A.LaneHigh(after, lane)
            && v.counter <= A.LaneHigh(after, Lane(v.authority, v.scopeClass, v.scopeTarget))
            && FromBE(b.faucet.cumulativeNativeSpend) <= FromBE(after.faucet.cumulativeNativeSpend)
            && FromBE(b.faucet.lifetimeSpend) <= FromBE(after.faucet.lifetimeSpend)
            && b.strictRecoveryCounter < after.strictRecoveryCounter
            && data.strictRecoveryCounter < after.strictRecoveryCounter
            && A.SameHome(b, after)
            && after.freshnessEpoch == b.freshnessEpoch + 1 && after.structuralVersion == b.structuralVersion + 1
            && (lane != Lane(v.authority, v.scopeClass, v.scopeTarget) ==>
                  A.LaneHigh(after, lane) == MarkHighest(high.rows, lane))
            && (p.verify)(b.config.recoveryAuthorityPk,
                          R.RecoveryPreimage(b.config.twodChainId, b.config.environmentIdentifier, requestId,
                                             q.recoveryHighWater.marksPayload), q.recoveryHighWater.signature)
  {
    hide OpenedIngress, ParsedPayload, KeyIdOf, RecoveryKeyId, RestoreParams, BindingPreimage, R.RecoveryPreimage,
        DecodedMarksPayload, Highest, R.RaisedLane, R.BackupCovered, R.BodyCovered;
    var (data, high) := RestoreInputs(p, t, q, v, requestId, b, measurement, dk).value;
    var own := Lane(v.authority, v.scopeClass, v.scopeTarget);
    var env := b.config.environmentIdentifier;
    R.RestoreCandidateOnlyRaises(b, data, high, own, v.counter, lane);
    R.RestoreNeverLowers(b, data, b.audit.capacity, high, lane);
    var base := R.Applied(b, data, b.audit.capacity).value;
    var adopted := R.Adopted(base, high);
    R.RaisedLaneLookups(adopted.counters, env, own, v.counter, env, lane);
    R.AdoptedLookup(base, high, lane);
  }

  // ---------------------------------------------------------------- a backup comes back

  /** The payload of an export of `entries` from `source`. */
  function ExportedPayload(t: RestoreTools, source: KeystoreBody, entries: seq<KeyEntry>): Option<bytes> {
    match (t.codec.serialise)(ExportData(source, entries))
    case None => None
    case Some(cbor) => Some(PayloadFrame(cbor))
  }

  /** The request's backup is what an export of the refs that `source` has among `exported` seals. */
  predicate IsExport(p: Primitives, t: RestoreTools, q: RestoreRequest, source: KeystoreBody, exported: seq<bytes32>,
                     entries: seq<KeyEntry>, draw: Option<bytes32>)
  {
    var key := source.config.backupRecoveryWrappingPubkey;
    var refs := R.SelectedKeyRefs(source.entries, exported);
    && R.Refs(entries) == refs && ExportedPayload(t, source, entries).Some?
    && SealedBackup(p, t.kem, key, RecoveryKeyId(p, key), source.config.twodChainId,
                    source.config.environmentIdentifier, R.ManifestOf(refs),
                    ExportedPayload(t, source, entries).value, draw) == Ok(q.originalBackup)
  }

  /** The request's envelope is the same payload, re-wrapped for this measurement and this ephemeral key. */
  ghost predicate IsRewrap(p: Primitives, t: RestoreTools, q: RestoreRequest, source: KeystoreBody,
                           entries: seq<KeyEntry>, f: Envelope.IngressFields, measurement: bytes, dk: bytes)
  {
    && ExportedPayload(t, source, entries).Some?
    && Wrapped(p, t.kem, dk, f, ExportedPayload(t, source, entries).value, q.ingressEnvelope)
    && f.destMeasurement == measurement && f.chainId == source.config.twodChainId
    && f.environmentIdentifier == source.config.environmentIdentifier
    && f.manifestHash == R.ManifestHash(p, R.ManifestOf(R.Refs(entries)))
    && f.originalBackupDigest == R.OriginalBackupDigest(p, q.originalBackup)
  }

  /** The capability is bound to this selector and backup, and the recovery authority signed these marks. */
  ghost predicate IsAuthorised(p: Primitives, q: RestoreRequest, v: VerifiedCapability, requestId: bytes,
                               b: KeystoreBody, high: DecodedMarks)
  {
    && v.payloadBinding == (p.keccak)(BindingPreimage(OPCODE_RESTORE_BACKUP, None, requestId,
          RestoreParams(q.requestedRefs, R.OriginalBackupDigest(p, q.originalBackup))))
    && LegalMarks(high, MAX_COUNTER_ENTRIES) && q.recoveryHighWater.marksPayload == MarksPayload(high)
    && R.RecoverySigned(p, q.recoveryHighWater, b.config.twodChainId, b.config.environmentIdentifier, requestId,
                        b.config.recoveryAuthorityPk)
  }

  predicate SameFleet(b: KeystoreBody, c: KeystoreBody) {
    && b.config.twodChainId == c.config.twodChainId
    && b.config.environmentIdentifier == c.config.environmentIdentifier
    && b.config.backupRecoveryWrappingPubkey == c.config.backupRecoveryWrappingPubkey
  }

  /**
    Export, re-wrap, restore: what was exported comes back. An enclave of the same chain, environment and
    recovery key gets a target from it for every selector that names the exported refs, exactly when the
    signed marks cover both sides and no counter or table is full; and the target is of that very data.
   */
  lemma {:induction false} ExportRestores(p: Primitives, t: RestoreTools, q: RestoreRequest, v: VerifiedCapability,
      requestId: bytes, source: KeystoreBody, exported: seq<bytes32>, entries: seq<KeyEntry>, draw: Option<bytes32>,
      f: Envelope.IngressFields, b: KeystoreBody, measurement: bytes, dk: bytes, high: DecodedMarks)
    requires RoundTrips(t.codec) && SameFleet(source, b)
    requires IsExport(p, t, q, source, exported, entries, draw)
    requires IsRewrap(p, t, q, source, entries, f, measurement, dk)
    requires IsAuthorised(p, q, v, requestId, b, high)
    requires forall y: bytes32 :: y in q.requestedRefs <==> y in exported && y in R.Refs(source.entries)
    ensures RestoreInputs(p, t, q, v, requestId, b, measurement, dk) == Some((ExportData(source, entries), high))
    ensures var lane := Lane(v.authority, v.scopeClass, v.scopeTarget);
            var target := RestoreTarget(p, t, q, v, requestId, b, measurement, dk);
            && (target.Some? <==> R.Restorable(b, ExportData(source, entries), high, lane))
            && (target.Some? ==> R.Refs(target.value.entries) == R.SelectedKeyRefs(source.entries, exported))
  {
    hide RoundTrips, SealedBackup, Wrapped, R.ManifestOf, OpenedIngress, ParsedPayload, R.Restorable,
        R.RestoreCandidate, PayloadFrame, LegalMarks, MarksPayload, R.RecoverySigned, BindingPreimage, RestoreParams,
        ExportData, R.SelectedKeyRefs, R.Refs, R.Admissible, RecoveryKeyId, KeyIdOf, DecodedMarksPayload;
    var data, payload := ExportData(source, entries), ExportedPayload(t, source, entries).value;
    var key := source.config.backupRecoveryWrappingPubkey;
    WrapThenOpen(p, t.kem, dk, f, payload, q.ingressEnvelope);
    PayloadReadsBack(t.codec, data);
    ExportIsAdmissible(p, source, exported, entries, q.originalBackup, q.requestedRefs, measurement);
    SealedKeyId(p, t.kem, key, RecoveryKeyId(p, key), source.config.twodChainId, source.config.environmentIdentifier,
                R.ManifestOf(R.SelectedKeyRefs(source.entries, exported)), payload, draw);
    assert MarksBytes(MarksPayload(high), high, MAX_COUNTER_ENTRIES);
    R.RestorableExactly(b, data, high, Lane(v.authority, v.scopeClass, v.scopeTarget), v.counter);
    TargetEntries(b, source, entries, high, Lane(v.authority, v.scopeClass, v.scopeTarget), v.counter);
  }

  lemma {:induction false} TargetEntries(b: KeystoreBody, source: KeystoreBody, entries: seq<KeyEntry>,
      high: DecodedMarks, lane: Lane, counter: u64)
    ensures R.RestoreCandidate(b, ExportData(source, entries), high, lane, counter).Some? ==>
              R.RestoreCandidate(b, ExportData(source, entries), high, lane, counter).value.entries == entries
  {
    hide R.RaisedLane, R.BackupCovered, R.BodyCovered;
  }

  // ---------------------------------------------------------------- success

  /** A key generation went through: from the live body `b` to `after`, over the round trip. */
  ghost predicate KeygenDone(p: Primitives, s: Sealer, q: AgentRequest, b: KeystoreBody, after: KeystoreBody,
                             trip: C.RoundTrip, nonce: bytes32)
  {
    && Sealed(s, after).Ok? && KeygenAdmitted(p, q, b).Ok? && ParsedCapability(q).Some?
    && A.OperationCandidate(b, CapLane(ParsedCapability(q).value, b.config), ParsedCapability(q).value.counter, after)
    && Committed(p, trip, after, q.requestId, nonce)
  }

  /** A restore went through: from the live body `b` to `after`, over the round trip. */
  ghost predicate RestoreDone(p: Primitives, s: Sealer, t: RestoreTools, q: AgentRequest, r: RestoreRequest,
                              measurement: bytes, dk: bytes, b: KeystoreBody, after: KeystoreBody, trip: C.RoundTrip,
                              nonce: bytes32)
  {
    && Sealed(s, after).Ok? && Authorised(p, q, OPCODE_RESTORE_BACKUP, b).Ok?
    && RestoreTarget(p, t, r, Authorised(p, q, OPCODE_RESTORE_BACKUP, b).value, q.requestId, b, measurement, dk)
       == Some(after)
    && Committed(p, trip, after, q.requestId, nonce)
  }

  // ---------------------------------------------------------------- the agent

  class AgentInstance {
    const process: Boot.EnclaveProcess
    const measurement: bytes
    var live: KeystoreBody
    var ephemeral: Option<bytes>

    constructor (body: KeystoreBody, measurement: bytes, process: Boot.EnclaveProcess)
      ensures live == body && this.measurement == measurement && this.process == process && ephemeral == None
    {
      live := body;
      this.measurement := measurement;
      this.process := process;
      ephemeral := None;
    }

    /** Propose the candidate and wait for the anchor's record of it: one request, or none at all. */
    method CommitCandidate(p: Primitives, candidate: KeystoreBody, requestId: bytes, draw: Option<bytes32>,
                           channel: C.CommitChannel) returns (ok: bool)
      requires ValidBody(candidate)
      modifies channel
      ensures if draw.None? || |requestId| > MAX_REQUEST_ID_LEN then !ok && channel.log == old(channel.log)
              else && AskedOnce(p, old(channel.log), channel.log, candidate, requestId, draw.value)
                   && (ok <==> Committed(p, channel.log[|old(channel.log)|], candidate, requestId, draw.value))
    {
      hide ValidBody, MarksPayload, C.Acknowledged, C.RequestBody, C.RequestFrame, C.CommitVerdict;
      if draw.None? {
        return false;
      }
      ConfigFits(candidate);
      var digest := Boot.ComputeLocalMarksDigest(p, candidate);
      var commit := Proposal(draw.value, candidate.freshnessEpoch, candidate.structuralVersion, digest, requestId);
      C.SealedRequestFits(C.RequestFor(commit, candidate.config));
      var r := C.RunAnchorCommit(p, channel, commit, candidate.config);
      ok := r.Ok?;
    }

    /**
      `commit_before_emit`. The blob is handed out only after the anchor's signed record of exactly this
      candidate; a candidate that does not seal never reaches the channel; any failure changes nothing.
     */
    method CommitBeforeEmit(p: Primitives, s: Sealer, candidate: KeystoreBody, requestId: bytes, draw: Option<bytes32>,
                            channel: C.CommitChannel) returns (blob: Option<bytes>)
      modifies this`live, channel
      ensures if Sealed(s, candidate).Err? || draw.None? || |requestId| > MAX_REQUEST_ID_LEN
              then blob.None? && channel.log == old(channel.log)
              else && AskedOnce(p, old(channel.log), channel.log, candidate, requestId, draw.value)
                   && (blob.Some? <==> Committed(p, channel.log[|old(channel.log)|], candidate, requestId, draw.value))
      ensures blob.Some? ==> Sealed(s, candidate) == Ok(blob.value)
      ensures live == if blob.Some? then candidate else old(live)
    {
      hide ValidBody, Committed, CommitFrame;
      var sealed := SealBody(s, candidate);
      if sealed.Err? {
        return None;
      }
      var ok := CommitCandidate(p, candidate, requestId, draw, channel);
      if !ok {
        return None;
      }
      live := candidate;
      blob := Some(sealed.value);
    }

    /**
      GENERATE_KEYS end to end, from the gate on. On success the live body is an operation's candidate
      for the verified capability: exactly its lane advanced, to exactly its counter; epoch and structural
      version up by one; `count` new keys appended; that state acknowledged by the anchor in the one round
      trip there was. And the capability is spent. On failure nothing moved; without a binding, or
      unauthorised, nothing was asked either.
     */
    method HandleGenerateKeys(p: Primitives, s: Sealer, q: AgentRequest, randomness: Randomness, codec: AddressCodec,
                              draw: Option<bytes32>, channel: C.CommitChannel)
      returns (r: Result<(seq<GeneratedKey>, bytes), AgentError>)
      modifies this`live, channel
      ensures !process.IsConfigured() ==> r == Err(NotConfigured) && channel.log == old(channel.log)
      ensures process.IsConfigured() && KeygenAdmitted(p, q, old(live)).Err? ==>
                r == Err(KeygenAdmitted(p, q, old(live)).error) && channel.log == old(channel.log)
      ensures r.Err? ==> live == old(live)
      ensures r.Ok? ==> && draw.Some? && Sealed(s, live) == Ok(r.value.1)
                        && AskedOnce(p, old(channel.log), channel.log, live, q.requestId, draw.value)
                        && KeygenDone(p, s, q, old(live), live, channel.log[|old(channel.log)|], draw.value)
      ensures r.Ok? ==>
                var c := ParsedCapability(q).value;
                && CapVerdict(p, Some(c), OPCODE_GENERATE_KEYS, q.requestId, old(live).config, old(live).counters).Ok?
                && forall opcode, requestId ::
                    CapVerdict(p, Some(c), opcode, requestId, live.config, live.counters).Err?
      ensures r.Ok? ==>
                var (v, purpose, count) := KeygenAdmitted(p, q, old(live)).value;
                && count <= MAX_BATCH_SIZE && |r.value.0| == count && |live.entries| == |old(live).entries| + count
                && live.entries[..|old(live).entries|] == old(live).entries
                && r.value.0 == Announced(codec, live.entries[|old(live).entries|..])
    {
      hide CapVerdict, ParseCapability, ValidBody, Committed, Staged, FindLane, Announced, KeygenAdmitted, Sealed,
          Authorised, CommitFrame;
      if !process.IsConfigured() {
        return Err(NotConfigured);
      }
      var admitted :- AdmitKeygen(p, q, live);
      var (v, purpose, count) := admitted;
      AdmittedIsAuthorised(p, q, live);
      VerdictFields(p, q, OPCODE_GENERATE_KEYS, live);
      var candidate := new KeystoreCell(live);
      var creation := CreationMetadata(live.config.monotonicTreasuryConfigVersion, v.counter, v.counter);
      var keys := GenerateKeys(candidate, purpose, count, creation, randomness, codec);
      if keys.Err? {
        return Err(MapKeygenError(keys.error));
      }
      var advanced := candidate.AdvanceCounter(Lane(v.authority, v.scopeClass, v.scopeTarget), v.counter);
      if advanced.Err? {
        return Err(if advanced.error == CapacityExceeded then CapExceeded else SealFailed);
      }
      var bumped := candidate.AdvanceCommitEpoch(true);
      if bumped.Err? {
        return Err(SealFailed);
      }
      var recorded := candidate.RecordAudit(
        AuditRecord(0, OPCODE_GENERATE_KEYS, v.authority, v.counter,
                    candidate.body.config.monotonicTreasuryConfigVersion, v.scopeClass, v.scopeTarget, q.requestId));
      if recorded.Err? {
        return Err(SealFailed);
      }
      ghost var c := ParsedCapability(q).value;
      var body := candidate.body;
      var blob := CommitBeforeEmit(p, s, body, q.requestId, draw, channel);
      if blob.None? {
        return Err(SealFailed);
      }
      SealedIsValid(s, body);
      assert A.OperationCandidate(old(live), CapLane(c, old(live).config), c.counter, body);
      SpentCapability(p, c, old(live), body, OPCODE_GENERATE_KEYS, q.requestId);
      assert live.entries[|old(live).entries|..]
             == Staged(randomness, old(live).entries, purpose, creation, count).value;
      r := Ok((keys.value, blob.value));
    }

    /** The restore the request amounts to in this process, if the gate and every check let it. */
    ghost function Target(p: Primitives, t: RestoreTools, q: AgentRequest, body: RestoreRequest): Option<KeystoreBody>
      reads this, process
    {
      var v := Authorised(p, q, OPCODE_RESTORE_BACKUP, live);
      if !process.IsConfigured() || v.Err? || ephemeral.None? then None
      else RestoreTarget(p, t, body, v.value, q.requestId, live, measurement, ephemeral.value)
    }

    /**
      RESTORE_BACKUP end to end: seal first, then attest the sealed blob, then commit, then swap. It
      succeeds exactly when every gate passes, in which case the live body is the restore's target;
      otherwise the live body stays. An attempt that got as far as a target uses up the ephemeral key.
      The channel is asked only for a target that is sealed and attested, and then once.
     */
    method HandleRestoreBackup(p: Primitives, s: Sealer, t: RestoreTools, q: AgentRequest, body: RestoreRequest,
                               attest: bytes -> Option<bytes>, draw: Option<bytes32>, channel: C.CommitChannel)
      returns (r: Option<(bytes, bytes)>)
      requires |body.requestedRefs| <= U64_MAX
      modifies this`live, this`ephemeral, channel
      ensures var target := old(Target(p, t, q, body));
              if target.None? || Sealed(s, target.value).Err? || attest(Sealed(s, target.value).value).None?
                  || draw.None?
              then r.None? && channel.log == old(channel.log)
              else && AskedOnce(p, old(channel.log), channel.log, target.value, q.requestId, draw.value)
                   && (r.Some? <==>
                       Committed(p, channel.log[|old(channel.log)|], target.value, q.requestId, draw.value))
                   && (r.Some? ==> r.value.0 == Sealed(s, target.value).value)
      ensures r.Some? ==> RestoreDone(p, s, t, q, body, measurement, old(ephemeral).value, old(live), live,
                                      channel.log[|old(channel.log)|], draw.value)
      ensures live == if r.Some? then old(Target(p, t, q, body)).value else old(live)
      ensures ephemeral == if old(Target(p, t, q, body)).Some? then None else old(ephemeral)
    {
      hide ValidBody, Committed, CommitFrame, RestoreTarget, Authorised;
      if !process.IsConfigured() {
        return None;
      }
      var v := Authorise(p, q, OPCODE_RESTORE_BACKUP, live);
      if v.Err? || ephemeral.None? {
        return None;
      }
      VerdictFields(p, q, OPCODE_RESTORE_BACKUP, live);
      var target := BuildRestoreTarget(p, t, body, v.value, q.requestId, live, measurement, ephemeral.value);
      if target.None? {
        return None;
      }
      ephemeral := None;
      var sealed := SealBody(s, target.value);
      if sealed.Err? {
        return None;
      }
      var report := attest(sealed.value);
      if report.None? {
        return None;
      }
      SealedIsValid(s, target.value);
      var ok := CommitCandidate(p, target.value, q.requestId, draw, channel);
      if !ok {
        return None;
      }
      live := target.value;
      r := Some((sealed.value, report.value));
    }
  }

  /**
    A process from its start: it serves a command only after its own boot was Ready, on the body that
    boot left, and otherwise never uses the channel.
   */
  method BootThenServe(p: Primitives, t: Boot.Transport, cell: KeystoreCell, maxAttempts: nat, measurement: bytes,
                       s: Sealer, q: AgentRequest, randomness: Randomness, codec: AddressCodec, draw: Option<bytes32>,
                       channel: C.CommitChannel)
    returns (r: Option<Result<(seq<GeneratedKey>, bytes), AgentError>>)
    requires ValidBody(cell.body)
    modifies cell, t, channel
    ensures old(t.log) <= t.log
    ensures var log := t.log[|old(t.log)|..];
            r.Some? <==> && 1 <= maxAttempts <= Boot.MAX_BOOT_ATTEMPTS_CEILING
                         && var run := Boot.Handshake(p, true, old(cell.body), maxAttempts, Boot.NO_ATTEMPT, log);
                            run.Some? && run.value.0.DriverReady?
    ensures r.None? ==> channel.log == old(channel.log)
    ensures r.Some? && KeygenAdmitted(p, q, cell.body).Err? ==> r.value.Err? && channel.log == old(channel.log)
  {
    hide Boot.Handshake, ValidBody, KeygenAdmitted, Committed, Sealed, CapVerdict, Announced, CommitFrame;
    var process := new Boot.EnclaveProcess();
    var outcome := process.RunBootHandshake(p, t, cell, maxAttempts);
    var state := process.DecideServe(outcome, true);
    if state.None? {
      return None;
    }
    var agent := new AgentInstance(cell.body, measurement, process);
    var answer := agent.HandleGenerateKeys(p, s, q, randomness, codec, draw, channel);
    r := Some(answer);
  }

  lemma {:induction false} AdmittedIsAuthorised(p: Primitives, q: AgentRequest, b: KeystoreBody)
    requires KeygenAdmitted(p, q, b).Ok?
    ensures Authorised(p, q, OPCODE_GENERATE_KEYS, b) == Ok(KeygenAdmitted(p, q, b).value.0)
  {
    hide Authorised, KeygenPreimage;
  }

  lemma {:induction false} SealedIsValid(s: Sealer, b: KeystoreBody)
    requires Sealed(s, b).Ok?
    ensures ValidBody(b)
  {
    hide ValidBody;
  }
}
