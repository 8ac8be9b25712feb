/**
  The keystore plaintext: its fields, the at-rest validation, the counter table, the commit epoch and
  the audit ring, as values and as the in-place updates of a candidate body.
 */
module Keystore {
  import opened Wrappers
  import opened Bytes
  import opened Cbor

  const MAX_TOTAL_KEY_ENTRIES: nat := 4096
  const MAX_BATCH_SIZE: nat := 256
  const MAX_COUNTER_ENTRIES: nat := 65_536
  const MAX_AUDIT_CAPACITY: nat := 65_536
  const ML_KEM_1024_ENCAPS_KEY_LEN: nat := 1568
  const MARKS_SCOPE_TARGET_MAX_LEN: nat := MAX_STR_LEN
  const MAX_SCOPE_TARGET_LEN: nat := 64
  const MAX_REQUEST_ID_LEN: nat := 64
  const MAX_KEYSTORE_BLOB_SIZE: u64 := 1_047_552
  const ZERO32: bytes32 := BE(32, 0)

  datatype KeyPurpose = AgentFaucetTreasuryK1 | AgentTransferK1

  datatype KeyAlgorithm = Secp256k1

  datatype CreationMetadata = CreationMetadata(configVersion: u64, counterSnapshot: u64, batchId: u64)

  datatype KeyEntry = KeyEntry(
    keyRef: bytes32,
    purpose: KeyPurpose,
    algorithm: KeyAlgorithm,
    publicIdentity: bytes,
    secretScalar: bytes,
    creationMetadata: CreationMetadata,
    lastExportedSeq: u64)

  datatype CounterEntry = CounterEntry(
    authority: bytes32,
    environmentIdentifier: bytes,
    scopeClass: u8,
    scopeTarget: bytes,
    highestAcceptedCounter: u64)

  datatype FaucetState = FaucetState(
    perDispenseMaxAmount: bytes32,
    maxGasLimit: u64,
    maxEffectiveGasFeeRate: u64,
    cumulativeNativeSpend: bytes32,
    lifetimeSpend: bytes32,
    circuitBreakerThreshold: Option<bytes32>,
    cumulativeSigningBudget: bytes32)

  datatype AuditRecord = AuditRecord(
    seqNo: u64,
    op: u8,
    authority: bytes32,
    counter: u64,
    configVersion: u64,
    scopeClass: u8,
    scopeTarget: bytes,
    requestId: bytes)

  datatype AuditRing = AuditRing(records: seq<AuditRecord>, capacity: nat, lastExportedSeq: u64, nextSeq: u64)

  datatype KeystoreConfig = KeystoreConfig(
    twodChainId: u64,
    environmentIdentifier: bytes,
    adminAuthorityPk: bytes32,
    recoveryAuthorityPk: bytes32,
    backupRecoveryWrappingPubkey: bytes,
    monotonicTreasuryConfigVersion: u64,
    authorityEpoch: u64,
    anchorRoot: bytes32,
    enclaveScopeId: bytes32,
    fleetScopeId: bytes32)

  datatype KeystoreBody = KeystoreBody(
    config: KeystoreConfig,
    entries: seq<KeyEntry>,
    counters: seq<CounterEntry>,
    faucet: FaucetState,
    audit: AuditRing,
    freshnessEpoch: u64,
    structuralVersion: u64,
    strictRecoveryCounter: u64)

  // ---------------------------------------------------------------- validation

  predicate LowerDigit(c: byte) {
    'a' as int <= c <= 'z' as int || '0' as int <= c <= '9' as int
  }

  const HYPHEN: byte := '-' as int

  /** 1..=64 bytes of [a-z0-9-], no leading, trailing or doubled hyphen. */
  predicate ValidEnvironment(s: bytes) {
    && 1 <= |s| <= 64
    && s[0] != HYPHEN && s[|s| - 1] != HYPHEN
    && (forall i | 0 <= i < |s| :: LowerDigit(s[i]) || s[i] == HYPHEN)
    && forall i | 0 <= i < |s| - 1 :: !(s[i] == HYPHEN && s[i + 1] == HYPHEN)
  }

  /** No two rows for one (authority, scope_class, scope_target). */
  predicate UniqueLanes(counters: seq<CounterEntry>) {
    forall i, j | 0 <= i < j < |counters| :: LaneOf(counters[i]) != LaneOf(counters[j])
  }

  predicate ValidCounters(counters: seq<CounterEntry>, env: bytes) {
    && |counters| <= MAX_COUNTER_ENTRIES
    && (forall i | 0 <= i < |counters| ::
          counters[i].environmentIdentifier == env && |counters[i].scopeTarget| <= MARKS_SCOPE_TARGET_MAX_LEN)
    && UniqueLanes(counters)
  }

  predicate UniqueRefs(entries: seq<KeyEntry>) {
    forall i, j | 0 <= i < j < |entries| :: entries[i].keyRef != entries[j].keyRef
  }

  predicate ValidEntries(entries: seq<KeyEntry>) {
    && |entries| <= MAX_TOTAL_KEY_ENTRIES
    && (forall i | 0 <= i < |entries| ::
          && |entries[i].publicIdentity| == 65 && entries[i].publicIdentity[0] == 0x04
          && |entries[i].secretScalar| == 32)
    && UniqueRefs(entries)
  }

  predicate ValidAudit(a: AuditRing) {
    && a.capacity <= MAX_AUDIT_CAPACITY
    && |a.records| <= a.capacity
    && (forall i | 0 <= i < |a.records| ::
          |a.records[i].scopeTarget| <= MAX_SCOPE_TARGET_LEN && |a.records[i].requestId| <= MAX_REQUEST_ID_LEN)
    && (forall i | 0 <= i < |a.records| - 1 :: a.records[i].seqNo < a.records[i + 1].seqNo)
    && (a.records != [] ==> a.records[|a.records| - 1].seqNo < a.nextSeq)
    && a.lastExportedSeq < a.nextSeq
  }

  /** The structural validation enforced on seal and unseal. */
  predicate ValidBody(b: KeystoreBody) {
    && b.structuralVersion != 0
    && ValidEnvironment(b.config.environmentIdentifier)
    && b.config.enclaveScopeId != ZERO32 && b.config.fleetScopeId != ZERO32
    && b.config.enclaveScopeId != b.config.fleetScopeId
    && |b.config.backupRecoveryWrappingPubkey| == ML_KEM_1024_ENCAPS_KEY_LEN
    && ValidEntries(b.entries)
    && ValidCounters(b.counters, b.config.environmentIdentifier)
    && ValidAudit(b.audit)
  }

  // ---------------------------------------------------------------- the counter table

  /** A counter lane within one environment. */
  datatype Lane = Lane(authority: bytes32, scopeClass: u8, scopeTarget: bytes)

  function LaneOf(c: CounterEntry): Lane {
    Lane(c.authority, c.scopeClass, c.scopeTarget)
  }

  predicate Matches(c: CounterEntry, env: bytes, lane: Lane) {
    c.environmentIdentifier == env && LaneOf(c) == lane
  }

  /** Highest accepted counter of a lane: first matching row, 0 when there is none. */
  function Highest(counters: seq<CounterEntry>, env: bytes, lane: Lane): (h: u64) {
    if counters == [] then 0
    else if Matches(counters[0], env, lane) then counters[0].highestAcceptedCounter
    else Highest(counters[1..], env, lane)
  }

  function FindLane(counters: seq<CounterEntry>, env: bytes, lane: Lane): (r: Option<nat>)
    ensures r.Some? ==> r.value < |counters| && Matches(counters[r.value], env, lane)
  {
    if counters == [] then None
    else if Matches(counters[0], env, lane) then Some(0)
    else
      var r := FindLane(counters[1..], env, lane);
      if r.None? then None else Some(r.value + 1)
  }

  lemma {:induction false} FindLaneFirst(counters: seq<CounterEntry>, env: bytes, lane: Lane, j: nat)
    requires j < |counters| && Matches(counters[j], env, lane)
    ensures FindLane(counters, env, lane).Some? && FindLane(counters, env, lane).value <= j
  {
    if !Matches(counters[0], env, lane) {
      FindLaneFirst(counters[1..], env, lane, j - 1);
    }
  }

  lemma {:induction false} HighestAt(counters: seq<CounterEntry>, env: bytes, lane: Lane)
    ensures match FindLane(counters, env, lane)
            case Some(i) => Highest(counters, env, lane) == counters[i].highestAcceptedCounter
            case None => Highest(counters, env, lane) == 0
  {
    if counters != [] && !Matches(counters[0], env, lane) {
      HighestAt(counters[1..], env, lane);
    }
  }

  /** `Highest` is what any matching row says, when at most one row can match. */
  lemma {:induction false} HighestIs(counters: seq<CounterEntry>, env: bytes, i: nat)
    requires UniqueLanes(counters) && i < |counters| && counters[i].environmentIdentifier == env
    ensures Highest(counters, env, LaneOf(counters[i])) == counters[i].highestAcceptedCounter
  {
    var lane := LaneOf(counters[i]);
    HighestAt(counters, env, lane);
    var f := FindLane(counters, env, lane);
    FindLaneFirst(counters, env, lane, i);
    assert f.value == i;
  }

  datatype KeystoreError = CounterRegression | CapacityExceeded | MonotonicOverflow | AuditBackpressure | Invalid

  /** The table after advancing `lane` to `incoming`: update the row in place, or append one. */
  function AdvancedCounters(counters: seq<CounterEntry>, env: bytes, lane: Lane, incoming: u64)
    : (r: Result<seq<CounterEntry>, KeystoreError>)
  {
    match FindLane(counters, env, lane)
    case Some(i) =>
      if incoming <= counters[i].highestAcceptedCounter then Err(CounterRegression)
      else Ok(counters[i := counters[i].(highestAcceptedCounter := incoming)])
    case None =>
      if |counters| >= MAX_COUNTER_ENTRIES then Err(CapacityExceeded)
      else Ok(counters + [CounterEntry(lane.authority, env, lane.scopeClass, lane.scopeTarget, incoming)])
  }

  /**
    A successful advance sets exactly one lane, never down, and leaves every other lane of every
    environment as it was.
   */
  lemma {:induction false} AdvanceMovesOneLane(
    counters: seq<CounterEntry>, env: bytes, lane: Lane, incoming: u64, env': bytes, other: Lane)
    requires AdvancedCounters(counters, env, lane, incoming).Ok?
    ensures var t := AdvancedCounters(counters, env, lane, incoming).value;
            && Highest(counters, env, lane) <= incoming == Highest(t, env, lane)
            && (other != lane || env' != env ==> Highest(t, env', other) == Highest(counters, env', other))
  {
    var t := AdvancedCounters(counters, env, lane, incoming).value;
    if counters == [] {
    } else if Matches(counters[0], env, lane) {
      assert t[1..] == counters[1..];
    } else {
      var tail := AdvancedCounters(counters[1..], env, lane, incoming);
      AdvanceMovesOneLane(counters[1..], env, lane, incoming, env', other);
      assert t[1..] == tail.value;
    }
  }

  /** Advancing keeps the table valid: same environment, bounded targets, one row per lane. */
  lemma {:induction false} AdvanceKeepsValid(counters: seq<CounterEntry>, env: bytes, lane: Lane, incoming: u64)
    requires ValidCounters(counters, env) && |lane.scopeTarget| <= MARKS_SCOPE_TARGET_MAX_LEN
    requires AdvancedCounters(counters, env, lane, incoming).Ok?
    ensures ValidCounters(AdvancedCounters(counters, env, lane, incoming).value, env)
  {
    var t := AdvancedCounters(counters, env, lane, incoming).value;
    match FindLane(counters, env, lane)
    case Some(i) =>
      assert forall j | 0 <= j < |t| :: LaneOf(t[j]) == LaneOf(counters[j]);
    case None =>
      forall j | 0 <= j < |counters| ensures LaneOf(counters[j]) != lane {
        if LaneOf(counters[j]) == lane {
          FindLaneFirst(counters, env, lane, j);
        }
      }
  }

  /** Epoch and (for a structural operation) structural version after a commit; checked, never wrapping. */
  function AdvancedEpoch(b: KeystoreBody, bumpsStructural: bool): (r: Result<KeystoreBody, KeystoreError>) {
    if b.freshnessEpoch == U64_MAX then Err(MonotonicOverflow)
    else if bumpsStructural && b.structuralVersion == U64_MAX then Err(MonotonicOverflow)
    else Ok(b.(freshnessEpoch := b.freshnessEpoch + 1,
               structuralVersion := if bumpsStructural then b.structuralVersion + 1 else b.structuralVersion))
  }

  // ---------------------------------------------------------------- the audit ring

  /** `next_seq - 1 - last_exported_seq`, saturating at zero. */
  function LiveUnexported(a: AuditRing): nat {
    if a.nextSeq > a.lastExportedSeq then a.nextSeq - 1 - a.lastExportedSeq else 0
  }

  /** The ring after appending a record, which takes the next sequence number. */
  function RecordedAudit(a: AuditRing, fields: AuditRecord): (r: Result<AuditRing, KeystoreError>) {
    if a.capacity == 0 then Err(AuditBackpressure)
    else if |a.records| >= a.capacity && LiveUnexported(a) >= a.capacity then Err(AuditBackpressure)
    else if a.nextSeq == U64_MAX then Err(MonotonicOverflow)
    else
      var kept := if |a.records| < a.capacity then a.records else a.records[1..];
      Ok(a.(records := kept + [fields.(seqNo := a.nextSeq)], nextSeq := a.nextSeq + 1))
  }

  /** Ascending sequence numbers leave room for at most that many records above a bound. */
  lemma {:induction false} RecordsAbove(records: seq<AuditRecord>, next: nat)
    requires records != [] && (forall i | 0 <= i < |records| - 1 :: records[i].seqNo < records[i + 1].seqNo)
    requires records[|records| - 1].seqNo < next
    ensures records[0].seqNo + |records| <= next
  {
    if |records| > 1 {
      var front := records[..|records| - 1];
      assert records[|records| - 2].seqNo < records[|records| - 2 + 1].seqNo;
      RecordsAbove(front, records[|records| - 1].seqNo);
    }
  }

  /**
    The ring never loses history that was not exported: at most the oldest record goes, and only when
    it has been exported. All others stay in order, followed by the new record.
   */
  lemma {:induction false} AuditLosesNothingUnexported(a: AuditRing, fields: AuditRecord)
    requires ValidAudit(a) && RecordedAudit(a, fields).Ok?
    ensures var r := RecordedAudit(a, fields).value;
            var n := |r.records| - 1;
            && n >= 0 && r.records[n] == fields.(seqNo := a.nextSeq)
            && (r.records[..n] == a.records
                || (a.records != [] && r.records[..n] == a.records[1..] && a.records[0].seqNo <= a.lastExportedSeq))
  {
    if |a.records| >= a.capacity {
      RecordsAbove(a.records, a.nextSeq);
    }
  }

  /** Recording keeps the ring valid. */
  lemma {:induction false} AuditStaysValid(a: AuditRing, fields: AuditRecord)
    requires ValidAudit(a) && RecordedAudit(a, fields).Ok?
    requires |fields.scopeTarget| <= MAX_SCOPE_TARGET_LEN && |fields.requestId| <= MAX_REQUEST_ID_LEN
    ensures ValidAudit(RecordedAudit(a, fields).value)
  {
    var r := RecordedAudit(a, fields).value;
    var kept := if |a.records| < a.capacity then a.records else a.records[1..];
    assert forall i | 0 <= i < |kept| :: r.records[i] == kept[i];
  }

  // ---------------------------------------------------------------- in-place updates

  /** A candidate body that an operation mutates before it is sealed: a `&mut KeystoreBody`. */
  class KeystoreCell {
    var body: KeystoreBody

    constructor (body: KeystoreBody)
      ensures this.body == body
    {
      this.body := body;
    }

    /** `advance_counter`: update the lane's row or append one; an error leaves the body as it was. */
    method AdvanceCounter(lane: Lane, incoming: u64) returns (r: Result<(), KeystoreError>)
      modifies this
      ensures match AdvancedCounters(old(body.counters), old(body.config.environmentIdentifier), lane, incoming)
              case Ok(t) => r == Ok(()) && body == old(body).(counters := t)
              case Err(e) => r == Err(e) && body == old(body)
    {
      var env := body.config.environmentIdentifier;
      var found := FindLane(body.counters, env, lane);
      if found.Some? {
        var i := found.value;
        if incoming <= body.counters[i].highestAcceptedCounter {
          return Err(CounterRegression);
        }
        var row := body.counters[i].(highestAcceptedCounter := incoming);
        body := body.(counters := body.counters[i := row]);
        return Ok(());
      }
      if |body.counters| >= MAX_COUNTER_ENTRIES {
        return Err(CapacityExceeded);
      }
      body := body.(counters := body.counters + [CounterEntry(lane.authority, env, lane.scopeClass, lane.scopeTarget,
          incoming)]);
      r := Ok(());
    }

    /** `advance_commit_epoch`: both increments are computed before either field is written. */
    method AdvanceCommitEpoch(bumpsStructural: bool) returns (r: Result<(), KeystoreError>)
      modifies this
      ensures match AdvancedEpoch(old(body), bumpsStructural)
              case Ok(b) => r == Ok(()) && body == b
              case Err(e) => r == Err(e) && body == old(body)
    {
      if body.freshnessEpoch == U64_MAX {
        return Err(MonotonicOverflow);
      }
      var newEpoch := body.freshnessEpoch + 1;
      var newStructural := body.structuralVersion;
      if bumpsStructural {
        if body.structuralVersion == U64_MAX {
          return Err(MonotonicOverflow);
        }
        newStructural := body.structuralVersion + 1;
      }
      body := body.(freshnessEpoch := newEpoch);
      body := body.(structuralVersion := newStructural);
      r := Ok(());
    }

    /** `record_audit`: refuse, or append and, when the ring is full, drop the oldest record. */
    method RecordAudit(fields: AuditRecord) returns (r: Result<(), KeystoreError>)
      modifies this
      ensures match RecordedAudit(old(body.audit), fields)
              case Ok(a) => r == Ok(()) && body == old(body).(audit := a)
              case Err(e) => r == Err(e) && body == old(body)
    {
      var cap := body.audit.capacity;
      if cap == 0 {
        return Err(AuditBackpressure);
      }
      if |body.audit.records| >= cap && LiveUnexported(body.audit) >= cap {
        return Err(AuditBackpressure);
      }
      if body.audit.nextSeq == U64_MAX {
        return Err(MonotonicOverflow);
      }
      var newNext := body.audit.nextSeq + 1;
      var record := fields.(seqNo := body.audit.nextSeq);
      var records := body.audit.records;
      if |records| >= cap {
        records := records[1..];
      }
      body := body.(audit := body.audit.(records := records + [record]));
      body := body.(audit := body.audit.(nextSeq := newNext));
      r := Ok(());
    }
  }
}
