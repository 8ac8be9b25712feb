/**
  The system as a whole: one enclave lineage, an append-only anchor and a hostile host and network,
  over runs of any length. Every enclave step is guarded by the same verdicts as the code; the host
  chooses the bytes, the order, the crashes and which emitted body to hand back.
 */
module AntiRollback {
  import opened Wrappers
  import opened Bytes
  import opened Cbor
  import opened Crypto
  import opened Anchor
  import opened Boot
  import opened Capabilities
  import opened Keystore
  import opened Marks
  import opened Positional
  import Preimages
  import Restore

  /**
    A durable anchor record: the body it commits to and the operation it belongs to. A record of a
    request that the host made up has an epoch and a version, but its digest is the host's.
   */
  datatype Entry = Entry(body: KeystoreBody, requestId: bytes, forged: Option<bytes32> := None)

  /** An accepted capability: what it was, the lane it drew from and the epoch its commit took. */
  datatype Acceptance = Acceptance(cap: Capability, lane: Lane, epoch: u64)

  /** The operation a process waits to have acknowledged. */
  datatype Pending = Pending(entry: Entry, nonce: bytes32, claim: Option<Acceptance>)

  datatype Ceremony = Ceremony(body: KeystoreBody, nonce: Option<bytes32>)

  datatype World = World(
    ledger: seq<Entry>,
    signed: set<Preimages.Statement>,
    proposals: set<(Entry, bytes32)>,
    emitted: set<KeystoreBody>,
    live: Option<KeystoreBody>,
    booting: Option<Ceremony>,
    pending: Option<Pending>,
    accepted: seq<Acceptance>,
    seen: set<DecodedMarks>)

  /** A commit request that the host made up. Nothing in a request proves who sent it. */
  datatype Forgery = Forgery(epoch: u64, structuralVersion: u64, marksDigest: bytes32, requestId: bytes)

  /** What the host, the network, the anchor and the enclave can do. */
  datatype Step =
    | SignFreshness(r: AnchorResponse)
    | SignMarks(m: MarksRespFields)
    | SignElsewhere(s: Preimages.Statement)
    | RecordCommit(entry: Entry, nonce: bytes32, signature: bytes64)
    | RecordForged(forgery: Forgery, forgedNonce: bytes32, forgedSignature: bytes64)
    | BootStart(body: KeystoreBody)
    | BootDraw(nonce: bytes32)
    | BootDrop
    | BootAdopt(response: bytes, reply: bytes)
    | BootReady(response: bytes)
    | Operate(cap: Capability, opcode: u8, candidate: KeystoreBody, nonce: bytes32)
    | RestoreFrom(restoreCap: Capability, data: Restore.RestoreIngressData, high: DecodedMarks, restoreNonce: bytes32)
    | Dispense(requestId: bytes, dispensed: KeystoreBody, dispenseNonce: bytes32)
    | AckReceived(ack: bytes)
    | GiveUp
    | Crash

  // ---------------------------------------------------------------- vocabulary

  function LaneHigh(b: KeystoreBody, lane: Lane): u64 {
    Highest(b.counters, b.config.environmentIdentifier, lane)
  }

  function Last(w: World): KeystoreBody
    requires w.ledger != []
  {
    w.ledger[|w.ledger| - 1].body
  }

  function Base(w: World): nat
    requires w.ledger != []
  {
    w.ledger[0].body.freshnessEpoch
  }

  predicate Recorded(w: World, epoch: nat) {
    w.ledger != [] && Base(w) <= epoch < Base(w) + |w.ledger|
  }

  /** The body the anchor recorded for an epoch. */
  function At(w: World, epoch: nat): KeystoreBody
    requires Recorded(w, epoch)
  {
    w.ledger[epoch - Base(w)].body
  }

  /** Same chain, environment and anchor key. */
  predicate SameHome(b: KeystoreBody, c: KeystoreBody) {
    && b.config.twodChainId == c.config.twodChainId
    && b.config.environmentIdentifier == c.config.environmentIdentifier
    && b.config.anchorRoot == c.config.anchorRoot
  }

  predicate Home(w: World, b: KeystoreBody)
    requires w.ledger != []
  {
    SameHome(w.ledger[0].body, b)
  }

  /** A statement about this keystore's scope. */
  predicate Concerns(w: World, s: Preimages.Statement)
    requires w.ledger != []
  {
    match s
    case Freshness(r) => InScope(r.chainId, r.environmentIdentifier, w.ledger[0].body.config)
    case MarksReply(m) => InScope(m.chainId, m.environmentIdentifier, w.ledger[0].body.config)
    case CommitAck(a) => InScope(a.chainId, a.environmentIdentifier, w.ledger[0].body.config)
    case Authorisation(_) => false
    case HighWater(_, _, _, _) => false
  }

  /** Unforgeability: a message that verifies under the anchor key is one that the anchor signed. */
  ghost predicate WasSigned(w: World, message: bytes) {
    exists s :: s in w.signed && Preimages.Preimage(s) == message
  }

  predicate NonceUsed(w: World, nonce: bytes32) {
    exists s :: s in w.signed && (match s
                                  case Freshness(r) => r.nonce == nonce
                                  case MarksReply(m) => m.nonce == nonce
                                  case CommitAck(a) => a.nonce == nonce
                                  case _ => false)
  }

  /** No two marks that occurred have the same digest. */
  ghost predicate CollisionFree(p: Primitives, w: World) {
    forall a, b | a in w.seen && b in w.seen && DigestOf(p, a) == DigestOf(p, b) :: a == b
  }

  /** A structural operation bumps the structural version; any other one only raises the marks. */
  predicate StepUp(b: KeystoreBody, c: KeystoreBody) {
    || b.structuralVersion < c.structuralVersion
    || (b.structuralVersion == c.structuralVersion && Dominates(MarksOf(c), b))
  }

  /** Everything an operation may do to a body: lanes never drop, the epoch steps by one. */
  ghost predicate Advances(b: KeystoreBody, c: KeystoreBody) {
    && ValidBody(c)
    && SameHome(b, c)
    && c.freshnessEpoch == b.freshnessEpoch + 1
    && StepUp(b, c)
    && forall lane :: LaneHigh(b, lane) <= LaneHigh(c, lane)
  }

  /**
    The candidate of an operation that one capability authorises: its lane is advanced to its counter,
    nothing else of the counter table moves, and epoch and structural version step by one. Keys, audit
    and faucet may change.
   */
  predicate OperationCandidate(b: KeystoreBody, lane: Lane, counter: u64, c: KeystoreBody) {
    && ValidBody(c)
    && SameHome(b, c)
    && c.freshnessEpoch == b.freshnessEpoch + 1
    && c.structuralVersion == b.structuralVersion + 1
    && AdvancedCounters(b.counters, b.config.environmentIdentifier, lane, counter) == Ok(c.counters)
  }

  function RecordDigest(p: Primitives, e: Entry): bytes32 {
    if e.forged.Some? then e.forged.value else LocalDigest(p, e.body)
  }

  /** The record of a made-up request, for this keystore's scope. */
  function ForgedEntry(w: World, f: Forgery): Entry
    requires w.ledger != []
  {
    Entry(w.ledger[0].body.(freshnessEpoch := f.epoch, structuralVersion := f.structuralVersion), f.requestId,
          Some(f.marksDigest))
  }

  /** The anchor states its latest record. */
  predicate Describes(p: Primitives, w: World, r: AnchorResponse)
    requires w.ledger != []
  {
    && LegalResponse(r)
    && InScope(r.chainId, r.environmentIdentifier, w.ledger[0].body.config)
    && r.epoch == Last(w).freshnessEpoch
    && r.structuralVersion == Last(w).structuralVersion
    && r.marksDigest == RecordDigest(p, w.ledger[|w.ledger| - 1])
  }

  function AckFor(p: Primitives, e: Entry, nonce: bytes32, signature: bytes64): CommitAckFields {
    var b := e.body;
    CommitAckFields(COMMIT_ACK_VERSION, b.config.twodChainId, b.config.environmentIdentifier, b.freshnessEpoch,
                    b.structuralVersion, RecordDigest(p, e), nonce, e.requestId, signature)
  }

  function ProposalFor(p: Primitives, q: Pending): Proposal {
    var b := q.entry.body;
    Proposal(q.nonce, b.freshnessEpoch, b.structuralVersion, LocalDigest(p, b), q.entry.requestId)
  }

  /** The record says just what the request proposes. */
  predicate SameRecord(p: Primitives, e: Entry, f: Entry) {
    && e.requestId == f.requestId && e.body.freshnessEpoch == f.body.freshnessEpoch
    && e.body.structuralVersion == f.body.structuralVersion && RecordDigest(p, e) == RecordDigest(p, f)
  }

  predicate RequestKnown(w: World, requestId: bytes) {
    exists i :: 0 <= i < |w.ledger| && w.ledger[i].requestId == requestId
  }

  predicate AlreadyRecorded(p: Primitives, w: World, e: Entry) {
    exists i :: 0 <= i < |w.ledger| && SameRecord(p, w.ledger[i], e)
  }

  /** A new request id at the next epoch is appended; anything else leaves the ledger alone. */
  predicate Appends(w: World, e: Entry)
    requires w.ledger != []
  {
    !RequestKnown(w, e.requestId) && e.body.freshnessEpoch == Last(w).freshnessEpoch + 1
  }

  // ---------------------------------------------------------------- the steps

  /** The state that a freshness reply proves to the booting process, if it verifies at all. */
  ghost function BootVerified(p: Primitives, w: World, response: bytes): (r: Option<AnchorState>)
    requires w.booting.Some? && w.booting.value.nonce.Some?
  {
    var d := DecodedResponse(response);
    match AnchorVerdict(p, d, w.booting.value.nonce.value, w.booting.value.body.config)
    case Ok(st) => if WasSigned(w, AnchorPreimage(d.value)) then Some(st) else None
    case Err(_) => None
  }

  /** The network delivers a proposal; it is new and next in line, or on record already. */
  predicate CanRecord(p: Primitives, w: World, e: Entry, nonce: bytes32)
    requires w.ledger != []
  {
    (e, nonce) in w.proposals && (Appends(w, e) || AlreadyRecorded(p, w, e))
  }

  /** The host delivers a request of its own; the anchor cannot tell. */
  predicate CanForge(p: Primitives, w: World, f: Forgery)
    requires w.ledger != []
  {
    |f.requestId| <= MAX_REQUEST_ID_LEN && (Appends(w, ForgedEntry(w, f)) || AlreadyRecorded(p, w, ForgedEntry(w, f)))
  }

  predicate Challenging(w: World) {
    w.booting.Some? && w.booting.value.nonce.Some?
  }

  /** Reconciling says to adopt, and `execute_adopt_forward` accepts the marks reply. */
  ghost predicate CanAdopt(p: Primitives, w: World, response: bytes, reply: bytes) {
    && Challenging(w) && BootVerified(p, w, response).Some?
    && LocalDecision(p, w.booting.value.body, BootVerified(p, w, response).value).AdoptForward?
    && AdoptedBody(p, w, response, reply).Ok?
  }

  ghost function AdoptedBody(p: Primitives, w: World, response: bytes, reply: bytes)
    : Result<KeystoreBody, AdoptForwardFail>
    requires Challenging(w) && BootVerified(p, w, response).Some?
  {
    AdoptVerdict(p, reply, w.booting.value.body, BootVerified(p, w, response).value, w.booting.value.nonce.value)
  }

  /** Reconciling says fresh. */
  ghost predicate CanReady(p: Primitives, w: World, response: bytes) {
    && Challenging(w) && BootVerified(p, w, response).Some?
    && LocalDecision(p, w.booting.value.body, BootVerified(p, w, response).value).Fresh?
  }

  /** The live body accepts the capability, and the candidate advances its lane and seals. */
  predicate CanOperate(p: Primitives, w: World, cap: Capability, opcode: u8, candidate: KeystoreBody) {
    && w.live.Some? && Accepts(p, w.live.value, cap, opcode)
    && OperationCandidate(w.live.value, CapLane(cap, w.live.value.config), cap.counter, candidate)
    && MarksFit(candidate)
  }

  predicate Accepts(p: Primitives, b: KeystoreBody, cap: Capability, opcode: u8) {
    CapVerdict(p, Some(cap), opcode, cap.requestId, b.config, b.counters).Ok? && LegalCapability(cap)
  }

  /** The live body accepts a restore capability and the restore gate lets the backup in. */
  predicate CanRestore(p: Primitives, w: World, cap: Capability, data: Restore.RestoreIngressData, high: DecodedMarks) {
    && w.live.Some? && Accepts(p, w.live.value, cap, OPCODE_RESTORE_BACKUP)
    && data.config.environmentIdentifier == w.live.value.config.environmentIdentifier
    && data.config.twodChainId == w.live.value.config.twodChainId
    && Restored(w.live.value, cap, data, high).Some? && ValidBody(Restored(w.live.value, cap, data, high).value)
    && MarksFit(Restored(w.live.value, cap, data, high).value)
  }

  function Restored(b: KeystoreBody, cap: Capability, data: Restore.RestoreIngressData, high: DecodedMarks)
    : Option<KeystoreBody>
  {
    Restore.RestoreCandidate(b, data, high, CapLane(cap, b.config), cap.counter)
  }

  /** The operation without a capability, a dispense: spends rise, the epoch steps, nothing structural. */
  predicate CanDispense(w: World, requestId: bytes, candidate: KeystoreBody) {
    && w.live.Some? && |requestId| <= MAX_REQUEST_ID_LEN
    && ValidBody(candidate) && MarksFit(candidate) && SameHome(w.live.value, candidate)
    && candidate.freshnessEpoch == w.live.value.freshnessEpoch + 1
    && candidate.counters == w.live.value.counters
    && candidate.structuralVersion == w.live.value.structuralVersion
    && candidate.strictRecoveryCounter == w.live.value.strictRecoveryCounter
    && LessEq(w.live.value.faucet.cumulativeNativeSpend, candidate.faucet.cumulativeNativeSpend)
    && LessEq(w.live.value.faucet.lifetimeSpend, candidate.faucet.lifetimeSpend)
  }

  /** The acknowledgement verifies against what is pending. */
  ghost predicate CanAck(p: Primitives, w: World, ack: bytes) {
    && w.pending.Some?
    && CommitAckVerdict(p, DecodedCommitAck(ack, MAX_REQUEST_ID_LEN), ProposalFor(p, w.pending.value),
        w.pending.value.entry.body.config).Ok?
    && WasSigned(w, CommitAckPreimage(DecodedCommitAck(ack, MAX_REQUEST_ID_LEN).value))
  }

  ghost predicate Enabled(p: Primitives, w: World, s: Step)
    requires w.ledger != []
  {
    match s
    case SignFreshness(r) => Describes(p, w, r)
    case SignMarks(m) =>
      && LegalMarksResp(m, MAX_MARKS_PAYLOAD_LEN) && m.epoch == Last(w).freshnessEpoch
      && (p.sha3)(MarksDomain() + m.marksPayload) == RecordDigest(p, w.ledger[|w.ledger| - 1])
    case SignElsewhere(s) => Preimages.Encodable(s) && !Concerns(w, s)
    case RecordCommit(e, nonce, _) => CanRecord(p, w, e, nonce)
    case RecordForged(f, _, _) => CanForge(p, w, f)
    case BootStart(b) => b in w.emitted
    case BootDraw(nonce) => w.booting.Some? && !NonceUsed(w, nonce)
    case BootDrop => w.booting.Some?
    case BootAdopt(response, reply) => CanAdopt(p, w, response, reply)
    case BootReady(response) => CanReady(p, w, response)
    case Operate(cap, opcode, candidate, nonce) => CanOperate(p, w, cap, opcode, candidate) && !NonceUsed(w, nonce)
    case RestoreFrom(cap, data, high, nonce) => CanRestore(p, w, cap, data, high) && !NonceUsed(w, nonce)
    case Dispense(requestId, candidate, nonce) => CanDispense(w, requestId, candidate) && !NonceUsed(w, nonce)
    case AckReceived(ack) => CanAck(p, w, ack)
    case GiveUp => true
    case Crash => true
  }

  function Signed(w: World, s: Preimages.Statement): World {
    w.(signed := w.signed + {s})
  }

  function Appended(p: Primitives, w: World, e: Entry): World {
    if AlreadyRecorded(p, w, e) then w else w.(ledger := w.ledger + [e])
  }

  function AckStatement(p: Primitives, e: Entry, nonce: bytes32, signature: bytes64): Preimages.Statement {
    Preimages.CommitAck(AckFor(p, e, nonce, signature))
  }

  /** The process starts waiting for an acknowledgement of `e`. */
  function Proposed(w: World, e: Entry, nonce: bytes32, claim: Option<Acceptance>): World {
    w.(pending := Some(Pending(e, nonce, claim)), proposals := w.proposals + {(e, nonce)},
        seen := w.seen + {MarksOf(e.body)})
  }

  function Claimed(w: World, cap: Capability, candidate: KeystoreBody, nonce: bytes32): World
    requires w.live.Some?
  {
    Proposed(w, Entry(candidate, cap.requestId), nonce,
             Some(Acceptance(cap, CapLane(cap, w.live.value.config), candidate.freshnessEpoch)))
  }

  function BootingWith(w: World, b: KeystoreBody, nonce: Option<bytes32>): World {
    w.(live := None, pending := None, booting := Some(Ceremony(b, nonce)))
  }

  /** The acknowledged candidate goes live and is handed to the host; a claim becomes an acceptance. */
  function Acknowledged(w: World): World
    requires w.pending.Some?
  {
    var q := w.pending.value;
    w.(live := Some(q.entry.body), pending := None, emitted := w.emitted + {q.entry.body},
       accepted := if q.claim.Some? then w.accepted + [q.claim.value] else w.accepted)
  }

  ghost function After(p: Primitives, w: World, s: Step): World
    requires w.ledger != [] && Enabled(p, w, s)
  {
    match s
    case SignFreshness(r) => Signed(w, Preimages.Freshness(r))
    case SignMarks(m) => Signed(w, Preimages.MarksReply(m))
    case SignElsewhere(s) => Signed(w, s)
    case RecordCommit(e, nonce, signature) => Signed(Appended(p, w, e), AckStatement(p, e, nonce, signature))
    case RecordForged(f, nonce, signature) =>
      Signed(Appended(p, w, ForgedEntry(w, f)), AckStatement(p, ForgedEntry(w, f), nonce, signature))
    case BootStart(b) => BootingWith(w, b, None)
    case BootDraw(nonce) => BootingWith(w, w.booting.value.body, Some(nonce))
    case BootDrop => BootingWith(w, w.booting.value.body, None)
    case BootAdopt(response, reply) =>
      var c := AdoptedBody(p, w, response, reply).value;
      BootingWith(w, c, None).(seen := w.seen + {MarksOf(c)})
    case BootReady(_) => w.(live := Some(w.booting.value.body), booting := None, pending := None)
    case Operate(cap, _, candidate, nonce) => Claimed(w, cap, candidate, nonce)
    case RestoreFrom(cap, data, high, nonce) => Claimed(w, cap, Restored(w.live.value, cap, data, high).value, nonce)
    case Dispense(requestId, candidate, nonce) => Proposed(w, Entry(candidate, requestId), nonce, None)
    case AckReceived(_) => Acknowledged(w)
    case GiveUp => w.(pending := None)
    case Crash => w.(live := None, pending := None, booting := None)
  }

  /** Provisioning: one valid genesis body, recorded by the anchor and handed to the host. */
  predicate Initial(w: World) {
    && |w.ledger| == 1 && w.ledger[0].forged.None? && ValidBody(w.ledger[0].body) && MarksFit(w.ledger[0].body)
    && w.signed == {} && w.proposals == {} && w.emitted == {w.ledger[0].body}
    && w.live == None && w.booting == None && w.pending == None && w.accepted == []
    && w.seen == {MarksOf(w.ledger[0].body)}
  }

  // ---------------------------------------------------------------- the invariant

  /** The ledger: consecutive epochs, one home, lanes that never drop. */
  ghost predicate LedgerOk(w: World) {
    && w.ledger != []
    && (forall i | 0 <= i < |w.ledger| ::
          && w.ledger[i].body.freshnessEpoch == Base(w) + i
          && w.ledger[i].forged.None? && ValidBody(w.ledger[i].body) && Home(w, w.ledger[i].body)
          && MarksOf(w.ledger[i].body) in w.seen)
    && (forall i | 0 <= i < |w.ledger| - 1 :: StepUp(w.ledger[i].body, w.ledger[i + 1].body))
    && forall i, lane | 0 <= i < |w.ledger| - 1 ::
        LaneHigh(w.ledger[i].body, lane) <= LaneHigh(w.ledger[i + 1].body, lane)
  }

  /** A body whose marks and structural version are the anchor's record of its epoch. */
  ghost predicate Vouched(w: World, b: KeystoreBody) {
    && Recorded(w, b.freshnessEpoch) && ValidBody(b) && Home(w, b)
    && MarksOf(b) == MarksOf(At(w, b.freshnessEpoch))
    && b.structuralVersion == At(w, b.freshnessEpoch).structuralVersion
  }

  ghost predicate BodiesOk(w: World) {
    && (forall b | b in w.emitted :: Vouched(w, b))
    && (w.live.Some? ==> Vouched(w, w.live.value))
    && (w.booting.Some? ==> w.live.None? && w.pending.None? && Vouched(w, w.booting.value.body))
  }

  /** A proposal builds on the record of the epoch before it. */
  ghost predicate ProposalOk(w: World, b: KeystoreBody) {
    && b.freshnessEpoch > 0 && Recorded(w, b.freshnessEpoch - 1) && ValidBody(b) && Home(w, b) && MarksOf(b) in w.seen
    && StepUp(At(w, b.freshnessEpoch - 1), b)
    && forall lane :: LaneHigh(At(w, b.freshnessEpoch - 1), lane) <= LaneHigh(b, lane)
  }

  ghost predicate ProposalsOk(w: World) {
    && (forall e, n | (e, n) in w.proposals ::
          e.forged.None? && ProposalOk(w, e.body) && |e.requestId| <= MAX_REQUEST_ID_LEN)
    && (w.pending.Some? ==> w.live.Some? && (w.pending.value.entry, w.pending.value.nonce) in w.proposals)
  }

  /** What an in-scope anchor statement says is on record. */
  ghost predicate StatementOk(p: Primitives, w: World, s: Preimages.Statement)
    requires w.ledger != []
  {
    Preimages.Encodable(s) &&
    (Concerns(w, s) ==>
       match s
       case Freshness(r) =>
         && Recorded(w, r.epoch) && r.structuralVersion == At(w, r.epoch).structuralVersion
         && r.marksDigest == LocalDigest(p, At(w, r.epoch))
       case CommitAck(a) =>
         && Recorded(w, a.epoch) && a.structuralVersion == At(w, a.epoch).structuralVersion
         && a.marksDigest == LocalDigest(p, At(w, a.epoch))
       case _ => true)
  }

  ghost predicate SignedOk(p: Primitives, w: World) {
    w.ledger != [] && forall s | s in w.signed :: StatementOk(p, w, s)
  }

  ghost predicate Inv(p: Primitives, w: World) {
    LedgerOk(w) && BodiesOk(w) && ProposalsOk(w) && SignedOk(p, w)
  }

  // ---------------------------------------------------------------- what never changes

  /** `v` comes after `w`: the ledger and the occurring marks have only grown. */
  ghost predicate Extends(w: World, v: World) {
    w.ledger != [] && w.ledger <= v.ledger && w.seen <= v.seen
  }

  lemma {:induction false} StillRecorded(w: World, v: World, epoch: nat)
    requires Extends(w, v) && Recorded(w, epoch)
    ensures Recorded(v, epoch) && At(v, epoch) == At(w, epoch)
  {
  }

  lemma {:induction false} StillVouched(w: World, v: World, b: KeystoreBody)
    requires Extends(w, v) && Vouched(w, b)
    ensures Vouched(v, b)
  {
    hide ValidBody, MarksOf;
    StillRecorded(w, v, b.freshnessEpoch);
  }

  lemma {:induction false} StillProposal(w: World, v: World, b: KeystoreBody)
    requires Extends(w, v) && ProposalOk(w, b)
    ensures ProposalOk(v, b)
  {
    hide ValidBody, MarksOf, LaneHigh, StepUp;
    StillRecorded(w, v, b.freshnessEpoch - 1);
  }

  lemma {:induction false} StillTrue(p: Primitives, w: World, v: World, s: Preimages.Statement)
    requires Extends(w, v) && StatementOk(p, w, s)
    ensures StatementOk(p, v, s) && (Concerns(w, s) <==> Concerns(v, s))
  {
    hide LocalDigest, Preimages.Encodable;
    assert w.ledger[0] == v.ledger[0];
    if Concerns(w, s) {
      match s
      case Freshness(r) => StillRecorded(w, v, r.epoch);
      case CommitAck(a) => StillRecorded(w, v, a.epoch);
      case _ =>
    }
  }

  lemma {:induction false} ProposalsKept(w: World, v: World)
    requires Extends(w, v) && ProposalsOk(w) && v.proposals == w.proposals
    requires v.pending.None? || (v.pending == w.pending && v.live == w.live)
    ensures ProposalsOk(v)
  {
    hide ProposalOk;
    forall e, n | (e, n) in v.proposals ensures ProposalOk(v, e.body) {
      StillProposal(w, v, e.body);
    }
  }

  lemma {:induction false} SignedKept(p: Primitives, w: World, v: World)
    requires Extends(w, v) && SignedOk(p, w)
    ensures forall s | s in w.signed :: StatementOk(p, v, s) && (Concerns(w, s) <==> Concerns(v, s))
    ensures v.signed == w.signed ==> SignedOk(p, v)
  {
    hide StatementOk, Concerns;
    forall s | s in w.signed ensures StatementOk(p, v, s) && (Concerns(w, s) <==> Concerns(v, s)) {
      StillTrue(p, w, v, s);
    }
  }

  lemma {:induction false} VouchingKept(w: World, v: World)
    requires Extends(w, v) && BodiesOk(w)
    ensures forall b | b in w.emitted :: Vouched(v, b)
    ensures w.live.Some? ==> Vouched(v, w.live.value)
    ensures w.booting.Some? ==> Vouched(v, w.booting.value.body)
  {
    hide Vouched;
    forall b | b in w.emitted ensures Vouched(v, b) {
      StillVouched(w, v, b);
    }
    if w.live.Some? {
      StillVouched(w, v, w.live.value);
    }
    if w.booting.Some? {
      StillVouched(w, v, w.booting.value.body);
    }
  }

  /** Equal marks are equal counters, lane by lane. */
  lemma {:induction false} MarksDecideLanes(b: KeystoreBody, c: KeystoreBody, lane: Lane)
    requires ValidBody(b) && ValidBody(c) && MarksOf(b) == MarksOf(c)
    ensures LaneHigh(b, lane) == LaneHigh(c, lane)
  {
    hide ValidBody, MarksOf, Highest;
    MarksKeepLookups(b, lane);
    MarksKeepLookups(c, lane);
  }

  /** Lanes never drop from one record to any later one. */
  lemma {:induction false} LedgerRises(w: World, i: nat, j: nat, lane: Lane)
    requires LedgerOk(w) && i <= j < |w.ledger|
    ensures LaneHigh(w.ledger[i].body, lane) <= LaneHigh(w.ledger[j].body, lane)
  {
    hide ValidBody, MarksOf, LaneHigh, StepUp;
    if i < j {
      LedgerRises(w, i, j - 1, lane);
      assert LaneHigh(w.ledger[j - 1].body, lane) <= LaneHigh(w.ledger[j - 1 + 1].body, lane);
    }
  }

  // ---------------------------------------------------------------- what a verified reply proves

  /** A verified freshness reply is a statement the anchor really made about this scope. */
  lemma {:induction false} FreshnessIsGenuine(p: Primitives, w: World, response: bytes) returns (r: AnchorResponse)
    requires SignedOk(p, w) && Challenging(w) && Home(w, w.booting.value.body)
    requires BootVerified(p, w, response).Some?
    ensures Preimages.Freshness(r) in w.signed && Concerns(w, Preimages.Freshness(r))
    ensures StateOf(r) == BootVerified(p, w, response).value && r.nonce == w.booting.value.nonce.value
    ensures Recorded(w, r.epoch) && r.structuralVersion == At(w, r.epoch).structuralVersion
    ensures r.marksDigest == LocalDigest(p, At(w, r.epoch))
  {
    hide DecodedResponse, AnchorPreimage, LocalDigest, Preimages.Preimage, WireEntries, Encode;
    var q := DecodedResponse(response).value;
    AnchorWireExact(response, q);
    var s :| s in w.signed && Preimages.Preimage(s) == AnchorPreimage(q);
    PreimageOfFreshness(q);
    assert StatementOk(p, w, s);
    Preimages.PreimageBindsStatement(s, Preimages.Freshness(q));
    r := s.r;
    assert r.(signature := q.signature) == q;
  }

  lemma {:induction false} PreimageOfFreshness(q: AnchorResponse)
    ensures Preimages.Preimage(Preimages.Freshness(q)) == AnchorPreimage(q)
  {
  }

  lemma {:induction false} PreimageOfAck(f: CommitAckFields)
    ensures Preimages.Preimage(Preimages.CommitAck(f)) == CommitAckPreimage(f)
  {
  }

  /** A verified acknowledgement proves that the proposed epoch is on record with the proposed digest. */
  lemma {:induction false} AckIsGenuine(p: Primitives, w: World, ack: bytes)
    requires SignedOk(p, w) && w.pending.Some? && Home(w, w.pending.value.entry.body)
    requires CanAck(p, w, ack)
    ensures var b := w.pending.value.entry.body;
            Recorded(w, b.freshnessEpoch) && LocalDigest(p, b) == LocalDigest(p, At(w, b.freshnessEpoch))
            && b.structuralVersion == At(w, b.freshnessEpoch).structuralVersion
  {
    hide DecodedCommitAck, CommitAckPreimage, LocalDigest, Preimages.Preimage, CommitAckEntries, Encode;
    var d := DecodedCommitAck(ack, MAX_REQUEST_ID_LEN);
    var f := d.value;
    assert CommitAckBytes(ack, f, MAX_REQUEST_ID_LEN);
    var s :| s in w.signed && Preimages.Preimage(s) == CommitAckPreimage(f);
    PreimageOfAck(f);
    assert StatementOk(p, w, s);
    Preimages.PreimageBindsStatement(s, Preimages.CommitAck(f));
    assert s.a.(signature := f.signature) == f;
  }

  // ---------------------------------------------------------------- the steps keep the invariant

  lemma {:induction false} LastEpoch(w: World)
    requires LedgerOk(w)
    ensures Last(w).freshnessEpoch == Base(w) + |w.ledger| - 1 && w.ledger[|w.ledger| - 1].forged.None?
  {
    hide ValidBody, MarksOf, LaneHigh, StepUp;
    assert w.ledger[|w.ledger| - 1].body.freshnessEpoch == Base(w) + (|w.ledger| - 1);
  }

  /** A new signature that states what is on record keeps the invariant. */
  lemma {:induction false} KeepsOnSigning(p: Primitives, w: World, s: Preimages.Statement)
    requires Inv(p, w) && StatementOk(p, w, s)
    ensures Inv(p, Signed(w, s))
  {
    hide LedgerOk, BodiesOk, ProposalsOk, SignedOk, StatementOk;
    var v := Signed(w, s);
    LedgerKept(w, v);
    BodiesKept(w, v);
    ProposalsKept(w, v);
    SigningKept(p, w, s);
    LastEpoch(w);
  }

  lemma {:induction false} SigningKept(p: Primitives, w: World, s: Preimages.Statement)
    requires LedgerOk(w) && SignedOk(p, w) && StatementOk(p, w, s)
    ensures SignedOk(p, Signed(w, s))
  {
    hide StatementOk, Concerns, LedgerOk;
    LedgerKept(w, Signed(w, s));
    SignedKept(p, w, Signed(w, s));
    StillTrue(p, w, Signed(w, s), s);
  }

  lemma {:induction false} SameConcerns(w: World, v: World, s: Preimages.Statement)
    requires w.ledger != [] && w.ledger <= v.ledger
    ensures Concerns(w, s) <==> Concerns(v, s)
  {
    assert w.ledger[0] == v.ledger[0];
  }

  lemma {:induction false} LedgerKept(w: World, v: World)
    requires LedgerOk(w) && v.ledger == w.ledger && w.seen <= v.seen
    ensures LedgerOk(v) && Extends(w, v)
  {
    hide ValidBody, MarksOf, LaneHigh, StepUp;
  }

  lemma {:induction false} BodiesKept(w: World, v: World)
    requires Extends(w, v) && BodiesOk(w) && v.emitted == w.emitted
    requires v.live == w.live && v.booting == w.booting && v.pending == w.pending
    ensures BodiesOk(v)
  {
    hide Vouched;
    VouchingKept(w, v);
  }

  /** Recording a delivered proposal, new or old. */
  lemma {:induction false} KeepsOnRecording(p: Primitives, w: World, e: Entry, nonce: bytes32, signature: bytes64)
    requires Inv(p, w) && CanRecord(p, w, e, nonce)
    ensures Inv(p, Signed(Appended(p, w, e), AckStatement(p, e, nonce, signature)))
  {
    hide LedgerOk, BodiesOk, ProposalsOk, SignedOk, StatementOk, AlreadyRecorded, AckFor;
    ProposalIn(w, e, nonce);
    if AlreadyRecorded(p, w, e) {
      AckOfRecord(p, w, e, nonce, signature);
    } else {
      AppendingKeeps(p, w, e);
      AckOfNew(p, w, e, nonce, signature);
    }
    hide Inv;
    KeepsOnSigning(p, Appended(p, w, e), AckStatement(p, e, nonce, signature));
  }

  lemma {:induction false} ProposalIn(w: World, e: Entry, nonce: bytes32)
    requires ProposalsOk(w) && (e, nonce) in w.proposals
    ensures e.forged.None? && ProposalOk(w, e.body) && |e.requestId| <= MAX_REQUEST_ID_LEN
    ensures |e.body.config.environmentIdentifier| <= 64
  {
    hide MarksOf, LaneHigh, StepUp, ValidCounters, ValidEntries, ValidAudit;
  }

  lemma {:induction false} AckOfRecord(p: Primitives, w: World, e: Entry, nonce: bytes32, signature: bytes64)
    requires LedgerOk(w) && AlreadyRecorded(p, w, e)
    requires |e.requestId| <= MAX_REQUEST_ID_LEN && |e.body.config.environmentIdentifier| <= 64
    ensures StatementOk(p, w, AckStatement(p, e, nonce, signature))
  {
    hide LocalDigest, MarksOf, LaneHigh, StepUp, ValidBody;
    var i :| 0 <= i < |w.ledger| && SameRecord(p, w.ledger[i], e);
    assert At(w, e.body.freshnessEpoch) == w.ledger[i].body;
  }

  lemma {:induction false} AckOfNew(p: Primitives, w: World, e: Entry, nonce: bytes32, signature: bytes64)
    requires LedgerOk(w) && Appends(w, e)
    requires |e.requestId| <= MAX_REQUEST_ID_LEN && |e.body.config.environmentIdentifier| <= 64
    ensures e.forged.None? ==> StatementOk(p, w.(ledger := w.ledger + [e]), AckStatement(p, e, nonce, signature))
  {
    hide LocalDigest, LedgerOk, RequestKnown;
    LastEpoch(w);
    LedgerNotEmpty(w);
    var v := w.(ledger := w.ledger + [e]);
    assert v.ledger[|w.ledger|] == e && v.ledger[0] == w.ledger[0];
    assert At(v, e.body.freshnessEpoch) == e.body;
  }

  lemma {:induction false} LedgerNotEmpty(w: World)
    requires LedgerOk(w)
    ensures w.ledger != []
  {
  }

  lemma {:induction false} AppendingKeeps(p: Primitives, w: World, e: Entry)
    requires Inv(p, w) && Appends(w, e) && ProposalOk(w, e.body) && e.forged.None?
    ensures Inv(p, w.(ledger := w.ledger + [e]))
  {
    hide LedgerOk, BodiesOk, ProposalsOk, SignedOk, ProposalOk, Appends;
    var v := w.(ledger := w.ledger + [e]);
    LedgerGrows(w, e);
    LedgerNotEmpty(w);
    BodiesKept(w, v);
    ProposalsKept(w, v);
    SignedKept(p, w, v);
  }

  lemma {:induction false} LedgerGrows(w: World, e: Entry)
    requires LedgerOk(w) && ProposalOk(w, e.body) && Appends(w, e) && e.forged.None?
    ensures LedgerOk(w.(ledger := w.ledger + [e]))
  {
    hide ValidBody, MarksOf, LaneHigh, StepUp, RequestKnown;
    var v, n := w.(ledger := w.ledger + [e]), |w.ledger|;
    assert v.ledger[0] == w.ledger[0] && v.ledger[n] == e;
    assert w.ledger[n - 1].body.freshnessEpoch == Base(w) + (n - 1);
    forall i | 0 <= i < |v.ledger| - 1 ensures StepUp(v.ledger[i].body, v.ledger[i + 1].body) {
      if i < n - 1 {
        assert StepUp(w.ledger[i].body, w.ledger[i + 1].body);
      } else {
        assert At(w, e.body.freshnessEpoch - 1) == w.ledger[n - 1].body;
      }
    }
    forall i, lane | 0 <= i < |v.ledger| - 1
        ensures LaneHigh(v.ledger[i].body, lane) <= LaneHigh(v.ledger[i + 1].body, lane) {
      if i < n - 1 {
        assert LaneHigh(w.ledger[i].body, lane) <= LaneHigh(w.ledger[i + 1].body, lane);
      } else {
        assert At(w, e.body.freshnessEpoch - 1) == w.ledger[n - 1].body;
      }
    }
  }

  /** A process in ceremony on a vouched body. */
  lemma {:induction false} KeepsOnCeremony(p: Primitives, w: World, v: World, b: KeystoreBody, nonce: Option<bytes32>)
    requires Inv(p, w) && v == BootingWith(w, b, nonce).(seen := v.seen) && w.seen <= v.seen && Vouched(v, b)
    ensures Inv(p, v)
  {
    hide LedgerOk, ProposalsOk, SignedOk, Vouched, NonceUsed, Concerns;
    LedgerKept(w, v);
    ProposalsKept(w, v);
    SignedKept(p, w, v);
    VouchingKept(w, v);
  }

  lemma {:induction false} KeepsOnLoss(p: Primitives, w: World, v: World)
    requires Inv(p, w)
    requires v == w.(pending := None) || v == w.(live := None, pending := None, booting := None)
    ensures Inv(p, v)
  {
    hide LedgerOk, ProposalsOk, SignedOk, Vouched, Concerns;
    LedgerKept(w, v);
    ProposalsKept(w, v);
    SignedKept(p, w, v);
    VouchingKept(w, v);
  }

  /** An adopted body carries exactly the marks of the record it was adopted from. */
  lemma {:induction false} AdoptedIsVouched(p: Primitives, w: World, v: World, response: bytes, reply: bytes)
    requires Inv(p, w) && CanAdopt(p, w, response, reply)
    requires Extends(w, v) && CollisionFree(p, v) && MarksOf(AdoptedBody(p, w, response, reply).value) in v.seen
    ensures Vouched(v, AdoptedBody(p, w, response, reply).value)
  {
    hide LedgerOk, BodiesOk, ProposalsOk, SignedOk;
    hide BootVerified, AdoptVerdict, MarksOf, ValidBody, DigestOf, LocalDecision, Seeded, Dominates, MarksPayload,
        ReplyPayload;
    BootingIsVouched(w);
    var b, nonce := w.booting.value.body, w.booting.value.nonce.value;
    var st := BootVerified(p, w, response).value;
    var r := FreshnessIsGenuine(p, w, response);
    AdoptCarriesCommittedMarks(p, reply, b, st, nonce);
    var c := AdoptedBody(p, w, response, reply).value;
    SeededKeeps(b, MarksOf(c), st.epoch);
    AdoptDigest(p, reply, b, st, nonce);
    FreshIsCurrent(p, b, st);
    RecordSeen(w, r.epoch);
    StillRecorded(w, v, r.epoch);
    assert DigestOf(p, MarksOf(c)) == DigestOf(p, MarksOf(At(w, r.epoch)));
  }

  lemma {:induction false} BootingIsVouched(w: World)
    requires BodiesOk(w) && w.booting.Some?
    ensures Vouched(w, w.booting.value.body) && Home(w, w.booting.value.body)
        && Recorded(w, w.booting.value.body.freshnessEpoch)
  {
    hide MarksOf, ValidBody;
  }

  lemma {:induction false} AdoptDigest(p: Primitives, reply: bytes, b: KeystoreBody, st: AnchorState, nonce: bytes32)
    requires AdoptVerdict(p, reply, b, st, nonce).Ok?
    ensures LocalDigest(p, AdoptVerdict(p, reply, b, st, nonce).value) == st.marksDigest
  {
    hide LocalDigest, ReplyPayload, Seeded, ValidBody, Dominates;
  }

  lemma {:induction false} RecordSeen(w: World, epoch: nat)
    requires LedgerOk(w) && Recorded(w, epoch)
    ensures MarksOf(At(w, epoch)) in w.seen && ValidBody(At(w, epoch)) && Home(w, At(w, epoch))
    ensures At(w, epoch).freshnessEpoch == epoch
  {
    hide ValidBody, MarksOf, LaneHigh, StepUp;
  }

  /** A process becomes ready on a body that is on record. */
  lemma {:induction false} KeepsOnReady(p: Primitives, w: World, response: bytes)
    requires Inv(p, w) && CanReady(p, w, response)
    ensures Inv(p, w.(live := Some(w.booting.value.body), booting := None, pending := None))
  {
    hide LedgerOk, ProposalsOk, SignedOk, Vouched, Concerns, BootVerified, LocalDecision, LocalDigest;
    var v := w.(live := Some(w.booting.value.body), booting := None, pending := None);
    BootingIsVouched(w);
    var r := FreshnessIsGenuine(p, w, response);
    FreshIsCurrent(p, w.booting.value.body, BootVerified(p, w, response).value);
    LedgerKept(w, v);
    ProposalsKept(w, v);
    SignedKept(p, w, v);
    VouchingKept(w, v);
  }

  /** A live body's lanes are those on record for its epoch. */
  lemma {:induction false} VouchedLanes(w: World, b: KeystoreBody, lane: Lane)
    requires LedgerOk(w) && Vouched(w, b)
    ensures LaneHigh(b, lane) == LaneHigh(At(w, b.freshnessEpoch), lane)
  {
    hide MarksOf, ValidBody, LaneHigh, StepUp;
    RecordSeen(w, b.freshnessEpoch);
    MarksDecideLanes(b, At(w, b.freshnessEpoch), lane);
  }

  /** Proposing a body that raises the live one keeps the invariant. */
  lemma {:induction false} KeepsOnProposal(p: Primitives, w: World, e: Entry, nonce: bytes32, claim: Option<Acceptance>)
    requires Inv(p, w) && w.live.Some? && Advances(w.live.value, e.body) && |e.requestId| <= MAX_REQUEST_ID_LEN
    requires e.forged.None?
    ensures Inv(p, Proposed(w, e, nonce, claim))
  {
    hide LedgerOk, SignedOk, Vouched, Concerns, ProposalOk, MarksOf, LaneHigh, StepUp, Advances;
    var v := Proposed(w, e, nonce, claim);
    LedgerKept(w, v);
    SignedKept(p, w, v);
    VouchingKept(w, v);
    ProposalsAnd(w, e, nonce, claim);
  }

  lemma {:induction false} ProposalsAnd(w: World, e: Entry, nonce: bytes32, claim: Option<Acceptance>)
    requires LedgerOk(w) && ProposalsOk(w) && w.live.Some? && Vouched(w, w.live.value)
    requires Advances(w.live.value, e.body) && |e.requestId| <= MAX_REQUEST_ID_LEN
    requires e.forged.None?
    ensures ProposalsOk(Proposed(w, e, nonce, claim))
  {
    hide LedgerOk, Vouched, ProposalOk, MarksOf, LaneHigh, StepUp, Advances;
    var v, b := Proposed(w, e, nonce, claim), w.live.value;
    LedgerKept(w, v);
    VouchedHome(w, b);
    StillVouched(w, v, b);
    StillRecorded(w, v, b.freshnessEpoch);
    forall lane ensures LaneHigh(At(v, b.freshnessEpoch), lane) == LaneHigh(b, lane) {
      VouchedLanes(w, b, lane);
    }
    AdvancesFromRecord(v, b, e.body);
    ProposalIsOk(v, b, e.body);
    AdvancesEpoch(b, e.body);
    forall f, n | (f, n) in w.proposals ensures ProposalOk(v, f.body) {
      StillProposal(w, v, f.body);
    }
  }

  lemma {:induction false} AdvancesEpoch(b: KeystoreBody, c: KeystoreBody)
    requires Advances(b, c)
    ensures c.freshnessEpoch == b.freshnessEpoch + 1
  {
    hide ValidBody, LaneHigh, StepUp;
  }

  lemma {:induction false} VouchedHome(w: World, b: KeystoreBody)
    requires Vouched(w, b)
    ensures Recorded(w, b.freshnessEpoch) && ValidBody(b) && Home(w, b)
  {
    hide MarksOf, ValidBody;
  }

  /** Stepping up from a body is stepping up from the record it carries. */
  lemma {:induction false} AdvancesFromRecord(w: World, b: KeystoreBody, c: KeystoreBody)
    requires Vouched(w, b) && Advances(b, c)
    ensures StepUp(At(w, b.freshnessEpoch), c)
  {
    hide ValidBody, MarksOf, LaneHigh, Dominates;
    if b.structuralVersion == c.structuralVersion {
      DominanceByMarks(MarksOf(c), b, At(w, b.freshnessEpoch));
    }
  }

  lemma {:induction false} ProposalIsOk(v: World, b: KeystoreBody, c: KeystoreBody)
    requires v.ledger != [] && Recorded(v, b.freshnessEpoch) && Home(v, b) && Advances(b, c) && MarksOf(c) in v.seen
    requires StepUp(At(v, b.freshnessEpoch), c)
    requires forall lane :: LaneHigh(At(v, b.freshnessEpoch), lane) == LaneHigh(b, lane)
    ensures ProposalOk(v, c)
  {
    hide ValidBody, MarksOf, LaneHigh, StepUp;
  }

  /** What accepting a capability implies about its counter, and that its request id is short. */
  lemma {:induction false} VerifiedCounter(p: Primitives, cap: Capability, opcode: u8, b: KeystoreBody)
    requires Accepts(p, b, cap, opcode)
    ensures cap.counter == LaneHigh(b, CapLane(cap, b.config)) + 1
    ensures |cap.requestId| <= MAX_REQUEST_ID_LEN
  {
    hide Highest, CapPreimage, ValidEnvironment, ValidScopeTarget;
  }

  lemma {:induction false} OperationAdvances(b: KeystoreBody, lane: Lane, counter: u64, c: KeystoreBody)
    requires OperationCandidate(b, lane, counter, c)
    ensures Advances(b, c) && LaneHigh(c, lane) == counter
  {
    hide ValidBody, Highest, AdvancedCounters;
    forall other ensures LaneHigh(b, other) <= LaneHigh(c, other) {
      AdvanceMovesOneLane(b.counters, b.config.environmentIdentifier, lane, counter, b.config.environmentIdentifier,
          other);
    }
    AdvanceMovesOneLane(b.counters, b.config.environmentIdentifier, lane, counter, b.config.environmentIdentifier,
        lane);
  }

  lemma {:induction false} KeepsOnOperate(p: Primitives, w: World, cap: Capability, opcode: u8,
      candidate: KeystoreBody, nonce: bytes32)
    requires Inv(p, w) && CanOperate(p, w, cap, opcode, candidate)
    ensures Inv(p, Claimed(w, cap, candidate, nonce))
  {
    hide Inv, Accepts, OperationCandidate, LaneHigh, StepUp, Proposed, Advances;
    var b := w.live.value;
    VerifiedCounter(p, cap, opcode, b);
    OperationAdvances(b, CapLane(cap, b.config), cap.counter, candidate);
    KeepsOnProposal(p, w, Entry(candidate, cap.requestId), nonce,
        Some(Acceptance(cap, CapLane(cap, b.config), candidate.freshnessEpoch)));
  }

  lemma {:induction false} RestoreAdvances(b: KeystoreBody, cap: Capability, data: Restore.RestoreIngressData,
      high: DecodedMarks)
    requires Restored(b, cap, data, high).Some? && ValidBody(Restored(b, cap, data, high).value)
    requires data.config.environmentIdentifier == b.config.environmentIdentifier
        && data.config.twodChainId == b.config.twodChainId
    ensures Advances(b, Restored(b, cap, data, high).value)
    ensures LaneHigh(Restored(b, cap, data, high).value, CapLane(cap, b.config)) >= cap.counter
  {
    hide ValidBody, Highest, Restore.RestoreCandidate;
    var lane := CapLane(cap, b.config);
    forall other ensures LaneHigh(b, other) <= LaneHigh(Restored(b, cap, data, high).value, other) {
      Restore.RestoreCandidateOnlyRaises(b, data, high, lane, cap.counter, other);
    }
    Restore.RestoreCandidateOnlyRaises(b, data, high, lane, cap.counter, lane);
    RestoreKeepsChain(b, data, high, lane, cap.counter);
  }

  lemma {:induction false} RestoreKeepsChain(b: KeystoreBody, data: Restore.RestoreIngressData, high: DecodedMarks,
      lane: Lane, counter: u64)
    requires Restore.RestoreCandidate(b, data, high, lane, counter).Some?
    ensures Restore.RestoreCandidate(b, data, high, lane, counter).value.config.twodChainId == data.config.twodChainId
  {
    hide Restore.RaisedLane, Restore.BackupCovered, Restore.BodyCovered;
  }

  lemma {:induction false} KeepsOnRestore(p: Primitives, w: World, cap: Capability, data: Restore.RestoreIngressData,
      high: DecodedMarks, nonce: bytes32)
    requires Inv(p, w) && CanRestore(p, w, cap, data, high)
    ensures Inv(p, Claimed(w, cap, Restored(w.live.value, cap, data, high).value, nonce))
  {
    hide Inv, Accepts, ValidBody, LaneHigh, StepUp, Proposed, Advances, Restored;
    var b := w.live.value;
    VerifiedCounter(p, cap, OPCODE_RESTORE_BACKUP, b);
    RestoreAdvances(b, cap, data, high);
    var candidate := Restored(b, cap, data, high).value;
    KeepsOnProposal(p, w, Entry(candidate, cap.requestId), nonce,
        Some(Acceptance(cap, CapLane(cap, b.config), candidate.freshnessEpoch)));
  }

  lemma {:induction false} SameCountersAdvance(b: KeystoreBody, c: KeystoreBody)
    requires ValidBody(b) && ValidBody(c) && SameHome(b, c) && c.freshnessEpoch == b.freshnessEpoch + 1
        && c.counters == b.counters
    requires c.structuralVersion == b.structuralVersion && c.strictRecoveryCounter == b.strictRecoveryCounter
    requires LessEq(b.faucet.cumulativeNativeSpend, c.faucet.cumulativeNativeSpend)
    requires LessEq(b.faucet.lifetimeSpend, c.faucet.lifetimeSpend)
    ensures Advances(b, c)
  {
    hide ValidBody, Highest, SortRows;
    DominanceReflexive(b);
    assert MarksOf(b).rows == MarksOf(c).rows;
  }

  lemma {:induction false} LiveIsValid(p: Primitives, w: World)
    requires Inv(p, w) && w.live.Some?
    ensures ValidBody(w.live.value)
  {
    hide LedgerOk, ProposalsOk, SignedOk, ValidBody, MarksOf;
  }

  lemma {:induction false} KeepsOnDispense(p: Primitives, w: World, requestId: bytes, candidate: KeystoreBody,
      nonce: bytes32)
    requires Inv(p, w) && CanDispense(w, requestId, candidate)
    ensures Inv(p, Proposed(w, Entry(candidate, requestId), nonce, None))
  {
    LiveIsValid(p, w);
    hide Inv, ValidBody, Proposed, Advances;
    SameCountersAdvance(w.live.value, candidate);
    KeepsOnProposal(p, w, Entry(candidate, requestId), nonce, None);
  }

  /** An acknowledged operation goes live on exactly the marks the anchor recorded for its epoch. */
  lemma {:induction false} KeepsOnAck(p: Primitives, w: World, ack: bytes)
    requires Inv(p, w) && CollisionFree(p, w) && CanAck(p, w, ack)
    ensures Inv(p, Acknowledged(w))
  {
    hide LedgerOk, SignedOk, Vouched, Concerns, CommitAckVerdict, CollisionFree, WasSigned;
    var v := Acknowledged(w);
    AckVouches(p, w, ack);
    LedgerKept(w, v);
    ProposalsKept(w, v);
    hide ProposalsOk;
    SignedKept(p, w, v);
    VouchingKept(w, v);
    StillVouched(w, v, w.pending.value.entry.body);
  }

  lemma {:induction false} AckVouches(p: Primitives, w: World, ack: bytes)
    requires Inv(p, w) && CollisionFree(p, w) && CanAck(p, w, ack)
    ensures Vouched(w, w.pending.value.entry.body)
  {
    var c := w.pending.value.entry.body;
    hide LedgerOk, BodiesOk, ProposalsOk, SignedOk, CanAck, ValidBody, MarksOf, DigestOf;
    PendingIsProposed(w);
    AckIsGenuine(p, w, ack);
    RecordSeen(w, c.freshnessEpoch);
    assert DigestOf(p, MarksOf(c)) == DigestOf(p, MarksOf(At(w, c.freshnessEpoch)));
  }

  lemma {:induction false} PendingIsProposed(w: World)
    requires ProposalsOk(w) && w.pending.Some?
    ensures var c := w.pending.value.entry.body;
            && w.ledger != [] && Home(w, c) && ValidBody(c) && MarksOf(c) in w.seen
            && w.pending.value.entry.forged.None?
  {
    hide ValidBody, MarksOf, LaneHigh, StepUp;
    assert ProposalOk(w, w.pending.value.entry.body);
  }

  /** Every step but a forged record keeps the invariant, provided no two marks that occurred collide. */
  lemma {:induction false} StepKeepsInv(p: Primitives, w: World, s: Step)
    requires Inv(p, w) && w.ledger != [] && Enabled(p, w, s) && CollisionFree(p, After(p, w, s))
    requires !s.RecordForged?
    ensures Inv(p, After(p, w, s))
  {
    hide Inv, CollisionFree, CanRecord, CanAdopt, CanReady, CanOperate, CanRestore, CanDispense, CanAck, Describes,
        Concerns, NonceUsed, Appended, Proposed, Claimed, Acknowledged, AckStatement;
    match s
    case SignFreshness(r) => FreshnessOk(p, w, r); KeepsOnSigning(p, w, Preimages.Freshness(r));
    case SignMarks(m) => MarksReplyOk(p, w, m); KeepsOnSigning(p, w, Preimages.MarksReply(m));
    case SignElsewhere(t) => ElsewhereOk(p, w, t); KeepsOnSigning(p, w, t);
    case RecordCommit(e, nonce, signature) => KeepsOnRecording(p, w, e, nonce, signature);
    case BootStart(b) =>
      EmittedIsVouched(p, w, BootingWith(w, b, None), b);
      KeepsOnCeremony(p, w, BootingWith(w, b, None), b, None);
    case BootDraw(nonce) =>
      CeremonyVouched(p, w, Some(nonce));
      KeepsOnCeremony(p, w, After(p, w, s), w.booting.value.body, Some(nonce));
    case BootDrop => CeremonyVouched(p, w, None); KeepsOnCeremony(p, w, After(p, w, s), w.booting.value.body, None);
    case BootAdopt(response, reply) => AdoptStepKeeps(p, w, response, reply);
    case BootReady(response) => KeepsOnReady(p, w, response);
    case Operate(cap, opcode, candidate, nonce) => KeepsOnOperate(p, w, cap, opcode, candidate, nonce);
    case RestoreFrom(cap, data, high, nonce) => KeepsOnRestore(p, w, cap, data, high, nonce);
    case Dispense(requestId, candidate, nonce) => KeepsOnDispense(p, w, requestId, candidate, nonce);
    case AckReceived(ack) => AckKeepsSeen(p, w, ack); KeepsOnAck(p, w, ack);
    case GiveUp => KeepsOnLoss(p, w, After(p, w, s));
    case Crash => KeepsOnLoss(p, w, After(p, w, s));
  }

  lemma {:induction false} AckKeepsSeen(p: Primitives, w: World, ack: bytes)
    requires CanAck(p, w, ack) && CollisionFree(p, Acknowledged(w))
    ensures CollisionFree(p, w)
  {
    hide CommitAckVerdict, DigestOf, WasSigned;
  }

  lemma {:induction false} FreshnessOk(p: Primitives, w: World, r: AnchorResponse)
    requires Inv(p, w) && w.ledger != [] && Describes(p, w, r)
    ensures StatementOk(p, w, Preimages.Freshness(r))
  {
    hide LedgerOk, BodiesOk, ProposalsOk, SignedOk, LocalDigest, ValidUtf8;
    LastEpoch(w);
  }

  lemma {:induction false} MarksReplyOk(p: Primitives, w: World, m: MarksRespFields)
    requires w.ledger != [] && LegalMarksResp(m, MAX_MARKS_PAYLOAD_LEN)
    ensures StatementOk(p, w, Preimages.MarksReply(m))
  {
    hide ValidUtf8;
  }

  lemma {:induction false} ElsewhereOk(p: Primitives, w: World, s: Preimages.Statement)
    requires w.ledger != [] && Preimages.Encodable(s) && !Concerns(w, s)
    ensures StatementOk(p, w, s)
  {
    hide Preimages.Encodable;
  }

  lemma {:induction false} EmittedIsVouched(p: Primitives, w: World, v: World, b: KeystoreBody)
    requires Inv(p, w) && b in w.emitted && v.ledger == w.ledger && w.seen <= v.seen
    ensures Vouched(v, b)
  {
    hide LedgerOk, ProposalsOk, SignedOk, Vouched;
    LedgerKept(w, v);
    StillVouched(w, v, b);
  }

  lemma {:induction false} CeremonyVouched(p: Primitives, w: World, nonce: Option<bytes32>)
    requires Inv(p, w) && w.booting.Some?
    ensures Vouched(BootingWith(w, w.booting.value.body, nonce), w.booting.value.body)
  {
    hide LedgerOk, ProposalsOk, SignedOk, Vouched;
    LedgerKept(w, BootingWith(w, w.booting.value.body, nonce));
    StillVouched(w, BootingWith(w, w.booting.value.body, nonce), w.booting.value.body);
  }

  lemma {:induction false} AdoptStepKeeps(p: Primitives, w: World, response: bytes, reply: bytes)
    requires Inv(p, w) && CanAdopt(p, w, response, reply)
    requires var c := AdoptedBody(p, w, response, reply).value;
             CollisionFree(p, BootingWith(w, c, None).(seen := w.seen + {MarksOf(c)}))
    ensures var c := AdoptedBody(p, w, response, reply).value;
            Inv(p, BootingWith(w, c, None).(seen := w.seen + {MarksOf(c)}))
  {
    hide AdoptedBody, CollisionFree, MarksOf, BootVerified, LocalDecision;
    var c := AdoptedBody(p, w, response, reply).value;
    var v := BootingWith(w, c, None).(seen := w.seen + {MarksOf(c)});
    InvLedger(p, w);
    LedgerKept(w, v);
    hide Inv;
    AdoptedIsVouched(p, w, v, response, reply);
    KeepsOnCeremony(p, w, v, c, None);
  }

  lemma {:induction false} InvLedger(p: Primitives, w: World)
    requires Inv(p, w)
    ensures LedgerOk(w)
  {
    hide LedgerOk, BodiesOk, ProposalsOk, SignedOk;
  }

  lemma {:induction false} InitialInv(p: Primitives, w: World)
    requires Initial(w)
    ensures Inv(p, w)
  {
    hide ValidBody, MarksOf, LaneHigh, StepUp;
  }

  // ---------------------------------------------------------------- runs

  /** A run: provisioning, then any number of enabled steps. */
  ghost predicate Run(p: Primitives, ws: seq<World>, steps: seq<Step>) {
    && |ws| == |steps| + 1 && Initial(ws[0])
    && forall i | 0 <= i < |steps| ::
         ws[i].ledger != [] && Enabled(p, ws[i], steps[i]) && ws[i + 1] == After(p, ws[i], steps[i])
  }

  lemma {:induction false} SeenGrows(p: Primitives, w: World, s: Step)
    requires w.ledger != [] && Enabled(p, w, s)
    ensures w.seen <= After(p, w, s).seen
  {
    hide CanRecord, CanAdopt, CanReady, CanOperate, CanRestore, CanDispense, CanAck, Describes, Concerns, NonceUsed,
        MarksOf, CapLane, AdoptedBody, AlreadyRecorded;
  }

  lemma {:induction false} FewerCollisions(p: Primitives, w: World, v: World)
    requires w.seen <= v.seen && CollisionFree(p, v)
    ensures CollisionFree(p, w)
  {
    hide DigestOf;
  }

  /** No request reached the anchor but those of the enclave. */
  predicate Genuine(steps: seq<Step>) {
    forall i | 0 <= i < |steps| :: !steps[i].RecordForged?
  }

  /** The invariant holds at the end of every genuine run in which no two occurring marks collide. */
  lemma {:induction false} RunKeepsInv(p: Primitives, ws: seq<World>, steps: seq<Step>)
    requires Run(p, ws, steps) && Genuine(steps) && CollisionFree(p, ws[|steps|])
    ensures Inv(p, ws[|steps|])
    decreases |steps|
  {
    hide Inv, Initial, CollisionFree, Enabled, After;
    if steps == [] {
      InitialInv(p, ws[0]);
    } else {
      var n := |steps| - 1;
      assert Enabled(p, ws[n], steps[n]) && ws[n + 1] == After(p, ws[n], steps[n]);
      SeenGrows(p, ws[n], steps[n]);
      FewerCollisions(p, ws[n], ws[n + 1]);
      RunPrefix(p, ws, steps, n);
      RunKeepsInv(p, ws[..n + 1], steps[..n]);
      StepKeepsInv(p, ws[n], steps[n]);
    }
  }

  lemma {:induction false} RunPrefix(p: Primitives, ws: seq<World>, steps: seq<Step>, n: nat)
    requires Run(p, ws, steps) && n <= |steps|
    ensures Run(p, ws[..n + 1], steps[..n])
  {
    hide Initial, Enabled, After;
    var us, ts := ws[..n + 1], steps[..n];
    assert us[0] == ws[0];
    forall i | 0 <= i < n ensures us[i].ledger != [] && Enabled(p, us[i], ts[i])
        && us[i + 1] == After(p, us[i], ts[i]) {
      assert us[i] == ws[i] && us[i + 1] == ws[i + 1] && ts[i] == steps[i];
    }
  }

  /** The capability's signature verifies under the key of the lane it drew from. */
  predicate Authentic(p: Primitives, a: Acceptance) {
    (p.verify)(a.lane.authority, CapPreimage(a.cap), a.cap.signature)
  }

  ghost predicate AllAuthentic(p: Primitives, w: World) {
    && (w.pending.Some? && w.pending.value.claim.Some? ==> Authentic(p, w.pending.value.claim.value))
    && forall a | a in w.accepted :: Authentic(p, a)
  }

  lemma {:induction false} AcceptedIsAuthentic(p: Primitives, b: KeystoreBody, cap: Capability, opcode: u8, epoch: u64)
    requires Accepts(p, b, cap, opcode)
    ensures Authentic(p, Acceptance(cap, CapLane(cap, b.config), epoch))
  {
    hide LegalCapability, CapPreimage, Highest;
  }

  lemma {:induction false} StepKeepsAuthentic(p: Primitives, w: World, s: Step)
    requires AllAuthentic(p, w) && w.ledger != [] && Enabled(p, w, s)
    ensures AllAuthentic(p, After(p, w, s))
  {
    hide Authentic, OperationCandidate, Describes, CanRecord, CanAdopt, CanReady, CanDispense, Accepts, MarksFit,
        Restored, ValidBody, CapLane, CommitAckVerdict, DecodedCommitAck, WasSigned, ProposalFor;
    match s
    case Operate(cap, opcode, candidate, _) =>
      AcceptedIsAuthentic(p, w.live.value, cap, opcode, candidate.freshnessEpoch);
    case RestoreFrom(cap, data, high, _) =>
      var candidate := Restored(w.live.value, cap, data, high).value;
      AcceptedIsAuthentic(p, w.live.value, cap, OPCODE_RESTORE_BACKUP, candidate.freshnessEpoch);
    case AckReceived(ack) =>
      assert forall a | a in Acknowledged(w).accepted :: Authentic(p, a);
    case _ =>
  }

  lemma {:induction false} RunIsAuthentic(p: Primitives, ws: seq<World>, steps: seq<Step>)
    requires Run(p, ws, steps)
    ensures AllAuthentic(p, ws[|steps|])
    decreases |steps|
  {
    hide AllAuthentic, Enabled;
    if steps == [] {
      InitialIsAuthentic(p, ws[0]);
    } else {
      var n := |steps| - 1;
      RunPrefix(p, ws, steps, n);
      RunIsAuthentic(p, ws[..n + 1], steps[..n]);
      StepKeepsAuthentic(p, ws[n], steps[n]);
    }
  }

  lemma {:induction false} InitialIsAuthentic(p: Primitives, w: World)
    requires Initial(w)
    ensures AllAuthentic(p, w)
  {
    hide ValidBody, MarksFit;
  }

  // ---------------------------------------------------------------- the honest case

  lemma {:induction false} AckBytesLegal(p: Primitives, e: Entry, nonce: bytes32, signature: bytes64)
    requires ValidBody(e.body) && |e.requestId| <= MAX_REQUEST_ID_LEN
    ensures LegalCommitAck(AckFor(p, e, nonce, signature), MAX_REQUEST_ID_LEN)
  {
    hide ValidEntries, ValidCounters, ValidAudit, ValidEnvironment, ValidUtf8, LocalDigest;
    EnvironmentIsUtf8(e.body.config.environmentIdentifier);
  }

  /** What is pending validates, has a short request id and comes from the enclave. */
  ghost predicate PendingSound(w: World) {
    w.pending.Some? ==> var e := w.pending.value.entry;
                        ValidBody(e.body) && |e.requestId| <= MAX_REQUEST_ID_LEN && e.forged.None? && w.live.Some?
  }

  lemma {:induction false} StepKeepsPending(p: Primitives, w: World, s: Step)
    requires PendingSound(w) && w.ledger != [] && Enabled(p, w, s)
    ensures PendingSound(After(p, w, s))
  {
    hide ValidBody, MarksFit, Describes, CanRecord, CanForge, CanAdopt, CanReady, Accepts, Restored, CapLane, CanAck,
        AckStatement, NonceUsed, OperationCandidate;
    match s
    case Operate(cap, opcode, candidate, _) =>
      VerifiedCounter(p, cap, opcode, w.live.value);
      OperationIsValid(w.live.value, CapLane(cap, w.live.value.config), cap.counter, candidate);
    case RestoreFrom(cap, _, _, _) => VerifiedCounter(p, cap, OPCODE_RESTORE_BACKUP, w.live.value);
    case _ =>
  }

  lemma {:induction false} RunKeepsPending(p: Primitives, ws: seq<World>, steps: seq<Step>)
    requires Run(p, ws, steps)
    ensures PendingSound(ws[|steps|])
    decreases |steps|
  {
    hide PendingSound, Enabled, After, Initial;
    if steps == [] {
      InitialPending(ws[0]);
    } else {
      var n := |steps| - 1;
      RunPrefix(p, ws, steps, n);
      RunKeepsPending(p, ws[..n + 1], steps[..n]);
      StepKeepsPending(p, ws[n], steps[n]);
    }
  }

  lemma {:induction false} InitialPending(w: World)
    requires Initial(w)
    ensures PendingSound(w)
  {
    hide ValidBody, MarksFit;
  }

  /** Once the anchor has recorded a pending operation, its canonical signed reply completes it. */
  lemma {:induction false} HonestCommitCompletes(p: Primitives, w: World, signature: bytes64)
    requires PendingSound(w) && w.pending.Some? && w.ledger != []
    requires var q := w.pending.value;
             CanRecord(p, w, q.entry, q.nonce)
             && (p.verify)(q.entry.body.config.anchorRoot, CommitAckPreimage(AckFor(p, q.entry, q.nonce, signature)),
                 signature)
    ensures var q := w.pending.value;
            CanAck(p, Signed(Appended(p, w, q.entry), AckStatement(p, q.entry, q.nonce, signature)),
                   Encode(MapV(CommitAckEntries(AckFor(p, q.entry, q.nonce, signature)))))
  {
    hide AlreadyRecorded, Appends, CanAck, ValidBody, MarksOf;
    SignedAckCompletes(p, Appended(p, w, w.pending.value.entry), signature);
  }

  /** The canonical signed echo of what is pending is accepted. */
  lemma {:induction false} SignedAckCompletes(p: Primitives, w: World, signature: bytes64)
    requires w.pending.Some?
    requires var q := w.pending.value;
             && ValidBody(q.entry.body) && |q.entry.requestId| <= MAX_REQUEST_ID_LEN && q.entry.forged.None?
             && (p.verify)(q.entry.body.config.anchorRoot, CommitAckPreimage(AckFor(p, q.entry, q.nonce, signature)),
                 signature)
    ensures var q := w.pending.value;
            CanAck(p, Signed(w, AckStatement(p, q.entry, q.nonce, signature)),
                   Encode(MapV(CommitAckEntries(AckFor(p, q.entry, q.nonce, signature)))))
  {
    hide Encode, CommitAckPreimage, CommitAckEntries, LocalDigest, ValidBody, LegalCommitAck, MarksOf;
    var q := w.pending.value;
    var f := AckFor(p, q.entry, q.nonce, signature);
    var ack := Encode(MapV(CommitAckEntries(f)));
    AckBytesLegal(p, q.entry, q.nonce, signature);
    assert CommitAckBytes(ack, f, MAX_REQUEST_ID_LEN);
    assert DecodedCommitAck(ack, MAX_REQUEST_ID_LEN) == Some(f);
    PreimageOfAck(f);
    assert Preimages.CommitAck(f) in Signed(w, AckStatement(p, q.entry, q.nonce, signature)).signed;
  }

  /** A process booting a body that is current for the ledger becomes ready on the anchor's reply. */
  lemma {:induction false} HonestBootCompletes(p: Primitives, w: World, r: AnchorResponse)
    requires w.ledger != [] && Challenging(w) && Describes(p, w, r) && Home(w, w.booting.value.body)
    requires r.version == ANCHOR_RESPONSE_VERSION && r.nonce == w.booting.value.nonce.value
    requires AnchorSigned(p, r, w.booting.value.body.config)
    requires Current(p, w.booting.value.body, StateOf(r))
    ensures CanReady(p, Signed(w, Preimages.Freshness(r)), Encode(MapV(WireEntries(r))))
  {
    hide Encode, WireEntries, AnchorPreimage, LocalDigest, LegalResponse, DecodedResponse;
    var v, bytes := Signed(w, Preimages.Freshness(r)), Encode(MapV(WireEntries(r)));
    AnchorWireExact(bytes, r);
    PreimageOfFreshness(r);
    assert Preimages.Freshness(r) in v.signed;
    FreshIsCurrent(p, w.booting.value.body, StateOf(r));
  }

  /** A process that has to adopt adopts on the anchor's reply and marks that carry the digest. */
  lemma {:induction false} HonestAdoptCompletes(p: Primitives, w: World, r: AnchorResponse, reply: bytes)
    requires w.ledger != [] && Challenging(w) && Describes(p, w, r) && Home(w, w.booting.value.body)
    requires r.version == ANCHOR_RESPONSE_VERSION && r.nonce == w.booting.value.nonce.value
    requires AnchorSigned(p, r, w.booting.value.body.config)
    requires LocalDecision(p, w.booting.value.body, StateOf(r)).AdoptForward?
    requires AdoptVerdict(p, reply, w.booting.value.body, StateOf(r), r.nonce).Ok?
    ensures var v := Signed(w, Preimages.Freshness(r));
            && CanAdopt(p, v, Encode(MapV(WireEntries(r))), reply)
            && AdoptedBody(p, v, Encode(MapV(WireEntries(r))), reply)
               == AdoptVerdict(p, reply, w.booting.value.body, StateOf(r), r.nonce)
  {
    hide Encode, WireEntries, AnchorPreimage, LocalDigest, LegalResponse, DecodedResponse, AdoptVerdict;
    var v, bytes := Signed(w, Preimages.Freshness(r)), Encode(MapV(WireEntries(r)));
    AnchorWireExact(bytes, r);
    PreimageOfFreshness(r);
    assert Preimages.Freshness(r) in v.signed;
  }

  lemma {:induction false} RunSnoc(p: Primitives, ws: seq<World>, steps: seq<Step>, s: Step)
    requires Run(p, ws, steps) && ws[|steps|].ledger != [] && Enabled(p, ws[|steps|], s)
    ensures Run(p, ws + [After(p, ws[|steps|], s)], steps + [s])
  {
    hide Initial, Enabled, After;
    var us, ts := ws + [After(p, ws[|steps|], s)], steps + [s];
    forall i | 0 <= i < |ts| ensures us[i].ledger != [] && Enabled(p, us[i], ts[i])
        && us[i + 1] == After(p, us[i], ts[i]) {
      if i < |steps| {
        assert us[i] == ws[i] && us[i + 1] == ws[i + 1] && ts[i] == steps[i];
      }
    }
  }

  function Genesis(b: KeystoreBody): World {
    World([Entry(b, [])], {}, {}, {b}, None, None, None, [], {MarksOf(b)})
  }

  /** The anchor's statement of a body under a fresh nonce. */
  function StatementOf(p: Primitives, b: KeystoreBody, nonce: bytes32, signature: bytes64): AnchorResponse {
    AnchorResponse(ANCHOR_RESPONSE_VERSION, b.config.twodChainId, b.config.environmentIdentifier, b.freshnessEpoch,
                   b.structuralVersion, LocalDigest(p, b), nonce, None, None, signature)
  }

  /** Boot of a genesis body, honest all along: four steps to a live process. */
  lemma {:induction false} GenesisBoots(p: Primitives, b: KeystoreBody, nonce: bytes32, signature: bytes64)
    returns (ws: seq<World>, steps: seq<Step>)
    requires ValidBody(b) && MarksFit(b)
    requires AnchorSigned(p, StatementOf(p, b, nonce, signature), b.config)
    ensures Run(p, ws, steps)
    ensures ws[|steps|] == Signed(Genesis(b),
        Preimages.Freshness(StatementOf(p, b, nonce, signature))).(live := Some(b))
  {
    hide ValidBody, MarksFit, MarksOf, LocalDigest, AnchorPreimage, WireEntries, Encode, DecodedResponse, ValidUtf8;
    var r := StatementOf(p, b, nonce, signature);
    GenesisText(b);
    var w0 := Genesis(b);
    ws, steps := [w0], [];
    assert Run(p, ws, steps);
    hide Run;
    RunSnoc(p, ws, steps, BootStart(b));
    var w1 := BootingWith(w0, b, None);
    ws, steps := ws + [w1], steps + [BootStart(b)];
    RunSnoc(p, ws, steps, BootDraw(nonce));
    var w2 := BootingWith(w1, b, Some(nonce));
    ws, steps := ws + [w2], steps + [BootDraw(nonce)];
    RunSnoc(p, ws, steps, SignFreshness(r));
    var w3 := Signed(w2, Preimages.Freshness(r));
    ws, steps := ws + [w3], steps + [SignFreshness(r)];
    HonestBootCompletes(p, w2, r);
    var response := Encode(MapV(WireEntries(r)));
    RunSnoc(p, ws, steps, BootReady(response));
    ws, steps := ws + [After(p, w3, BootReady(response))], steps + [BootReady(response)];
  }

  lemma {:induction false} GenesisText(b: KeystoreBody)
    requires ValidBody(b)
    ensures |b.config.environmentIdentifier| <= MAX_STR_LEN && ValidUtf8(b.config.environmentIdentifier)
  {
    hide ValidEntries, ValidCounters, ValidAudit, ValidUtf8;
    EnvironmentIsUtf8(b.config.environmentIdentifier);
  }

  /** The anchor's canonical, signed record of a proposal, as bytes. */
  function AckBytes(p: Primitives, e: Entry, nonce: bytes32, signature: bytes64): bytes {
    Encode(MapV(CommitAckEntries(AckFor(p, e, nonce, signature))))
  }

  /** The anchor records and signs, and the enclave gets the answer. */
  function CommitSteps(p: Primitives, e: Entry, nonce: bytes32, signature: bytes64): seq<Step> {
    [RecordCommit(e, nonce, signature), AckReceived(AckBytes(p, e, nonce, signature))]
  }

  /** In any run, an operation that is pending and recordable can be recorded and acknowledged. */
  lemma {:induction false} PendingCompletes(p: Primitives, ws: seq<World>, steps: seq<Step>, signature: bytes64)
    returns (vs: seq<World>, ts: seq<Step>)
    requires Run(p, ws, steps) && ws[|steps|].pending.Some? && ws[|steps|].ledger != []
    requires var q := ws[|steps|].pending.value;
             CanRecord(p, ws[|steps|], q.entry, q.nonce)
             && (p.verify)(q.entry.body.config.anchorRoot, CommitAckPreimage(AckFor(p, q.entry, q.nonce, signature)),
                 signature)
    ensures Run(p, vs, ts)
    ensures var q := ws[|steps|].pending.value;
            && ts == steps + CommitSteps(p, q.entry, q.nonce, signature)
            && vs[|ts|] == Acknowledged(Signed(Appended(p, ws[|steps|], q.entry),
                                               AckStatement(p, q.entry, q.nonce, signature)))
  {
    var w := ws[|steps|];
    var q := w.pending.value;
    hide Run, PendingSound, CanRecord, Enabled, After, Signed, Appended, Acknowledged, CommitAckPreimage;
    RunKeepsPending(p, ws, steps);
    var v := Signed(Appended(p, w, q.entry), AckStatement(p, q.entry, q.nonce, signature));
    var ack := Encode(MapV(CommitAckEntries(AckFor(p, q.entry, q.nonce, signature))));
    RecordThenAck(p, w, signature);
    RunSnoc(p, ws, steps, RecordCommit(q.entry, q.nonce, signature));
    vs, ts := ws + [v], steps + [RecordCommit(q.entry, q.nonce, signature)];
    RunSnoc(p, vs, ts, AckReceived(ack));
    vs, ts := vs + [Acknowledged(v)], ts + [AckReceived(ack)];
  }

  lemma {:induction false} RecordThenAck(p: Primitives, w: World, signature: bytes64)
    requires PendingSound(w) && w.pending.Some? && w.ledger != []
    requires var q := w.pending.value;
             CanRecord(p, w, q.entry, q.nonce)
             && (p.verify)(q.entry.body.config.anchorRoot, CommitAckPreimage(AckFor(p, q.entry, q.nonce, signature)),
                 signature)
    ensures var q := w.pending.value;
            var v := Signed(Appended(p, w, q.entry), AckStatement(p, q.entry, q.nonce, signature));
            var record := RecordCommit(q.entry, q.nonce, signature);
            var ack := AckReceived(Encode(MapV(CommitAckEntries(AckFor(p, q.entry, q.nonce, signature)))));
            && Enabled(p, w, record) && After(p, w, record) == v && v.ledger != [] && v.pending == w.pending
            && Enabled(p, v, ack) && After(p, v, ack) == Acknowledged(v)
  {
    hide PendingSound, CanRecord, CanAck, AlreadyRecorded, AckStatement, CommitAckPreimage, AckFor, CommitAckEntries,
        Encode;
    HonestCommitCompletes(p, w, signature);
  }

  /** The world after a claimed operation was proposed, recorded and acknowledged. */
  ghost function Completed(p: Primitives, w: World, e: Entry, nonce: bytes32, claim: Option<Acceptance>,
                           signature: bytes64): World
  {
    Acknowledged(Signed(Appended(p, Proposed(w, e, nonce, claim), e), AckStatement(p, e, nonce, signature)))
  }

  /** In any run a process that proposes something new and recordable can complete it. */
  lemma {:induction false} ProposalCompletes(p: Primitives, ws: seq<World>, steps: seq<Step>, s: Step, e: Entry,
      nonce: bytes32, claim: Option<Acceptance>, signature: bytes64) returns (vs: seq<World>, ts: seq<Step>)
    requires Run(p, ws, steps) && ws[|steps|].ledger != [] && Enabled(p, ws[|steps|], s)
    requires After(p, ws[|steps|], s) == Proposed(ws[|steps|], e, nonce, claim)
    requires Appends(ws[|steps|], e) || AlreadyRecorded(p, ws[|steps|], e)
    requires (p.verify)(e.body.config.anchorRoot, CommitAckPreimage(AckFor(p, e, nonce, signature)), signature)
    ensures Run(p, vs, ts) && vs[|ts|] == Completed(p, ws[|steps|], e, nonce, claim, signature)
    ensures ts == steps + [s] + CommitSteps(p, e, nonce, signature)
  {
    assert |ws| == |steps| + 1;
    var v := Proposed(ws[|steps|], e, nonce, claim);
    StillRecordable(p, ws[|steps|], e, nonce, claim);
    ProposedPending(ws[|steps|], e, nonce, claim);
    hide Run, Enabled, After, Appended, AckStatement, CommitAckPreimage, CanRecord, MarksOf, Proposed, Acknowledged,
        Appends, AlreadyRecorded, CommitSteps;
    RunSnoc(p, ws, steps, s);
    vs, ts := ws + [v], steps + [s];
    vs, ts := PendingCompletes(p, vs, ts, signature);
  }

  lemma {:induction false} ProposedPending(w: World, e: Entry, nonce: bytes32, claim: Option<Acceptance>)
    ensures Proposed(w, e, nonce, claim).pending == Some(Pending(e, nonce, claim))
    ensures Proposed(w, e, nonce, claim).ledger == w.ledger
  {
    hide MarksOf;
  }

  lemma {:induction false} StillRecordable(p: Primitives, w: World, e: Entry, nonce: bytes32,
      claim: Option<Acceptance>)
    requires w.ledger != [] && (Appends(w, e) || AlreadyRecorded(p, w, e))
    ensures CanRecord(p, Proposed(w, e, nonce, claim), e, nonce)
  {
    hide SameRecord, MarksOf;
    if AlreadyRecorded(p, w, e) {
      var i :| 0 <= i < |w.ledger| && SameRecord(p, w.ledger[i], e);
      assert SameRecord(p, Proposed(w, e, nonce, claim).ledger[i], e);
    }
  }

  /**
    Replay safety is not about nothing: whenever a valid genesis body accepts a capability and
    the anchor signs honestly, some run accepts it.
   */
  lemma {:induction false} SomeRunAccepts(p: Primitives, b: KeystoreBody, cap: Capability, opcode: u8,
      candidate: KeystoreBody, n1: bytes32, n2: bytes32, s1: bytes64, s2: bytes64)
    returns (ws: seq<World>, steps: seq<Step>)
    requires ValidBody(b) && MarksFit(b) && MarksFit(candidate) && n1 != n2 && cap.requestId != []
    requires Accepts(p, b, cap, opcode) && OperationCandidate(b, CapLane(cap, b.config), cap.counter, candidate)
    requires DigestOf(p, MarksOf(candidate)) == DigestOf(p, MarksOf(b)) ==> MarksOf(candidate) == MarksOf(b)
    requires AnchorSigned(p, StatementOf(p, b, n1, s1), b.config)
    requires (p.verify)(candidate.config.anchorRoot,
        CommitAckPreimage(AckFor(p, Entry(candidate, cap.requestId), n2, s2)), s2)
    ensures Run(p, ws, steps) && CollisionFree(p, ws[|steps|])
    ensures ws[|steps|].accepted == [Acceptance(cap, CapLane(cap, b.config), candidate.freshnessEpoch)]
    ensures ws[|steps|].live == Some(candidate) && ws[|steps|].emitted == {b, candidate}
    ensures ws[|steps|].seen == {MarksOf(b), MarksOf(candidate)}
    ensures ws[|steps|].ledger == [Entry(b, []), Entry(candidate, cap.requestId)]
    ensures ws[|steps|].signed == {Preimages.Freshness(StatementOf(p, b, n1, s1)),
                                   AckStatement(p, Entry(candidate, cap.requestId), n2, s2)}
  {
    hide ValidBody, MarksFit, MarksOf, LocalDigest, DigestOf, CommitAckPreimage, Encode, DecodedCommitAck, Accepts,
        OperationCandidate, AckFor, CommitAckEntries, CommitAckVerdict, AnchorSigned;
    ws, steps := GenesisBoots(p, b, n1, s1);
    hide Run;
    var w4 := ws[|steps|];
    var e := Entry(candidate, cap.requestId);
    RunSnoc(p, ws, steps, Operate(cap, opcode, candidate, n2));
    var w5 := Claimed(w4, cap, candidate, n2);
    ws, steps := ws + [w5], steps + [Operate(cap, opcode, candidate, n2)];
    OperationEpoch(b, CapLane(cap, b.config), cap.counter, candidate);
    assert Appends(w5, e);
    ws, steps := PendingCompletes(p, ws, steps, s2);
  }

  /** A repeated request: what is on record already is signed again for the new nonce and accepted. */
  lemma {:induction false} RetryCompletes(p: Primitives, w: World, cap: Capability, opcode: u8, c: KeystoreBody,
      nonce: bytes32, signature: bytes64)
    returns (operate: Step, record: Step, ack: Step)
    requires w.ledger != [] && w.live.Some? && !NonceUsed(w, nonce)
    requires CanOperate(p, w, cap, opcode, c)
    requires AlreadyRecorded(p, w, Entry(c, cap.requestId))
    requires (p.verify)(c.config.anchorRoot, CommitAckPreimage(AckFor(p, Entry(c, cap.requestId), nonce, signature)),
                        signature)
    ensures var e := Entry(c, cap.requestId);
            var v := Claimed(w, cap, c, nonce);
            var u := Signed(v, AckStatement(p, e, nonce, signature));
            && Enabled(p, w, operate) && After(p, w, operate) == v
            && v.ledger != [] && Enabled(p, v, record) && After(p, v, record) == u
            && u.ledger != [] && Enabled(p, u, ack) && After(p, u, ack) == Acknowledged(u)
  {
    hide ValidBody, MarksOf, MarksFit, LocalDigest, CommitAckPreimage, Encode, DecodedCommitAck, Accepts, CanAck,
        OperationCandidate, AckFor, CommitAckEntries, SameRecord, NonceUsed, AckStatement, CapLane;
    var e := Entry(c, cap.requestId);
    operate := Operate(cap, opcode, c, nonce);
    record := RecordCommit(e, nonce, signature);
    ack := AckReceived(Encode(MapV(CommitAckEntries(AckFor(p, e, nonce, signature)))));
    var v := Claimed(w, cap, c, nonce);
    assert AlreadyRecorded(p, v, e);
    OperationIsValid(w.live.value, CapLane(cap, w.live.value.config), cap.counter, c);
    VerifiedCounter(p, cap, opcode, w.live.value);
    SignedAckCompletes(p, v, signature);
  }

  lemma {:induction false} ForkIsReady(p: Primitives, w: World, b: KeystoreBody, cap: Capability, opcode: u8,
      c1: KeystoreBody, c2: KeystoreBody, n1: bytes32, n2: bytes32, n3: bytes32, s1: bytes64, s2: bytes64)
    requires Accepts(p, b, cap, opcode) && OperationCandidate(b, CapLane(cap, b.config), cap.counter, c2)
    requires MarksFit(c1) && MarksOf(c1) == MarksOf(c2) && LocalDigest(p, c1) == LocalDigest(p, c2)
    requires c1.freshnessEpoch == c2.freshnessEpoch && c1.structuralVersion == c2.structuralVersion
    requires w.ledger == [Entry(b, []), Entry(c1, cap.requestId)] && n3 != n1 && n3 != n2
    requires w.signed == {Preimages.Freshness(StatementOf(p, b, n1, s1)),
                          AckStatement(p, Entry(c1, cap.requestId), n2, s2)}
    ensures var fork := w.(live := Some(b));
            && CanOperate(p, fork, cap, opcode, c2) && !NonceUsed(fork, n3)
            && AlreadyRecorded(p, fork, Entry(c2, cap.requestId))
  {
    hide MarksOf, LocalDigest, Accepts, OperationCandidate, CapLane, MarksPayload;
    assert SameRecord(p, w.ledger[1], Entry(c2, cap.requestId));
  }

  /**
    One process at a time is needed, not just convenient. Two processes that were booted from one body
    and given one capability propose records that differ in keys alone; the anchor takes the second
    for a retry of the first and signs again, so both accept. `fork` is the second process beside
    everything the first one left on the anchor and the network.
   */
  lemma {:induction false} ClonesAcceptTwice(p: Primitives, b: KeystoreBody, cap: Capability, opcode: u8,
      c1: KeystoreBody, c2: KeystoreBody, n1: bytes32, n2: bytes32, n3: bytes32, s1: bytes64, s2: bytes64, s3: bytes64)
    returns (ws: seq<World>, steps: seq<Step>, fork: World, operate: Step, record: Step, ack: Step, end: World)
    requires ValidBody(b) && MarksFit(b) && MarksFit(c1) && cap.requestId != [] && n1 != n2 && n1 != n3 && n2 != n3
    requires Accepts(p, b, cap, opcode)
    requires OperationCandidate(b, CapLane(cap, b.config), cap.counter, c1)
    requires OperationCandidate(b, CapLane(cap, b.config), cap.counter, c2)
    requires c1.faucet == c2.faucet && c1.strictRecoveryCounter == c2.strictRecoveryCounter
    requires DigestOf(p, MarksOf(c1)) == DigestOf(p, MarksOf(b)) ==> MarksOf(c1) == MarksOf(b)
    requires AnchorSigned(p, StatementOf(p, b, n1, s1), b.config)
    requires (p.verify)(c1.config.anchorRoot, CommitAckPreimage(AckFor(p, Entry(c1, cap.requestId), n2, s2)), s2)
    requires (p.verify)(c2.config.anchorRoot, CommitAckPreimage(AckFor(p, Entry(c2, cap.requestId), n3, s3)), s3)
    ensures Run(p, ws, steps) && b in ws[|steps|].emitted && fork == ws[|steps|].(live := Some(b))
    ensures && fork.ledger != [] && Enabled(p, fork, operate)
            && var v := After(p, fork, operate);
               && v.ledger != [] && Enabled(p, v, record)
               && var u := After(p, v, record);
                  u.ledger != [] && Enabled(p, u, ack) && After(p, u, ack) == end
    ensures var a := Acceptance(cap, CapLane(cap, b.config), c1.freshnessEpoch);
            end.accepted == [a, a] && CollisionFree(p, end)
  {
    hide ValidBody, MarksFit, MarksOf, LocalDigest, DigestOf, CommitAckPreimage, Accepts, OperationCandidate, AckFor,
        AnchorSigned, CapLane, StatementOf, Enabled, After, CanOperate, AlreadyRecorded, NonceUsed, Encode;
    ws, steps := SomeRunAccepts(p, b, cap, opcode, c1, n1, n2, s1, s2);
    var w := ws[|steps|];
    fork := w.(live := Some(b));
    SameMarks(p, b, CapLane(cap, b.config), cap.counter, c1, c2);
    ForkIsReady(p, w, b, cap, opcode, c1, c2, n1, n2, n3, s1, s2);
    operate, record, ack := RetryCompletes(p, fork, cap, opcode, c2, n3, s3);
    end := Acknowledged(Signed(Claimed(fork, cap, c2, n3), AckStatement(p, Entry(c2, cap.requestId), n3, s3)));
  }

  lemma {:induction false} OperationIsValid(b: KeystoreBody, lane: Lane, counter: u64, c: KeystoreBody)
    requires OperationCandidate(b, lane, counter, c)
    ensures ValidBody(c)
  {
    hide ValidBody, AdvancedCounters;
  }

  /** Candidates for one capability that agree on spends and recovery counter agree on all marks. */
  lemma {:induction false} SameMarks(p: Primitives, b: KeystoreBody, lane: Lane, counter: u64, c1: KeystoreBody,
      c2: KeystoreBody)
    requires OperationCandidate(b, lane, counter, c1) && OperationCandidate(b, lane, counter, c2)
    requires c1.faucet == c2.faucet && c1.strictRecoveryCounter == c2.strictRecoveryCounter
    ensures MarksOf(c1) == MarksOf(c2) && LocalDigest(p, c1) == LocalDigest(p, c2)
    ensures c1.freshnessEpoch == c2.freshnessEpoch && c1.structuralVersion == c2.structuralVersion
  {
    hide ValidBody, AdvancedCounters;
  }

  lemma {:induction false} OperationEpoch(b: KeystoreBody, lane: Lane, counter: u64, c: KeystoreBody)
    requires OperationCandidate(b, lane, counter, c)
    ensures c.freshnessEpoch == b.freshnessEpoch + 1
  {
    hide ValidBody, AdvancedCounters;
  }

  // ---------------------------------------------------------------- what the host can boot

  /** Between records of one structural version, the later marks dominate the earlier body. */
  lemma {:induction false} RecordsDominate(w: World, i: nat, j: nat)
    requires LedgerOk(w) && i <= j < |w.ledger|
    ensures w.ledger[i].body.structuralVersion <= w.ledger[j].body.structuralVersion
    ensures w.ledger[i].body.structuralVersion == w.ledger[j].body.structuralVersion ==>
              Dominates(MarksOf(w.ledger[j].body), w.ledger[i].body)
  {
    hide ValidBody, MarksOf, LaneHigh, Dominates;
    if i == j {
      DominanceReflexive(w.ledger[i].body);
    } else {
      RecordsDominate(w, i, j - 1);
      assert StepUp(w.ledger[j - 1].body, w.ledger[j - 1 + 1].body);
      if w.ledger[i].body.structuralVersion == w.ledger[j].body.structuralVersion {
        DominanceChains(MarksOf(w.ledger[j].body), w.ledger[j - 1].body, w.ledger[i].body);
      }
    }
  }

  /**
    Whatever body the host hands back, the anchor's latest statement decides about it by its age alone:
    the latest is fresh, an earlier one adopts forward or, if a structural operation lies in between,
    is refused. It is never ahead of the ledger or inconsistent with it.
   */
  lemma {:induction false} EmittedBodiesNeverAhead(p: Primitives, w: World, b: KeystoreBody, r: AnchorResponse)
    requires Inv(p, w) && w.ledger != [] && b in w.emitted && Describes(p, w, r)
    ensures LocalDecision(p, b, StateOf(r)) != ReconcileDecision.FailClosed(AnchorBehind)
    ensures LocalDecision(p, b, StateOf(r)) != ReconcileDecision.FailClosed(Inconsistent)
    ensures b.freshnessEpoch <= r.epoch && (b.freshnessEpoch == r.epoch ==> Current(p, b, StateOf(r)))
    ensures LocalDecision(p, b, StateOf(r)) == Fresh <==> b.freshnessEpoch == Last(w).freshnessEpoch
    ensures LocalDecision(p, b, StateOf(r)) == ReconcileDecision.FailClosed(StructuralGap) <==>
            b.structuralVersion < Last(w).structuralVersion
  {
    EmittedVouched(p, w, b);
    InvLedger(p, w);
    hide Inv, ValidBody, MarksOf, LegalResponse, DigestOf, LedgerOk, LocalDecision, Dominates;
    LastEpoch(w);
    FreshIsCurrent(p, b, StateOf(r));
    var i, n := b.freshnessEpoch - Base(w), |w.ledger| - 1;
    RecordsDominate(w, i, n);
    assert At(w, b.freshnessEpoch) == w.ledger[i].body;
  }

  /**
    A commit whose sealed body is lost. After a dispense, the only operation that keeps the structural
    version, booting the body before it adopts forward to exactly what was lost, up to the order of the
    counter table; after any operation with a capability it is refused and nothing is adopted.
   */
  lemma {:induction false} LostCommit(p: Primitives, b: KeystoreBody, cumulative: bytes32, lifetime: bytes32,
      lane: Lane, counter: u64, c: KeystoreBody, st: AnchorState)
    requires ValidBody(b) && st.epoch == c.freshnessEpoch && st.structuralVersion == c.structuralVersion
    ensures var paid := b.(faucet := b.faucet.(cumulativeNativeSpend := cumulative, lifetimeSpend := lifetime));
            LessEq(b.faucet.cumulativeNativeSpend, cumulative) && LessEq(b.faucet.lifetimeSpend, lifetime)
            && AdvancedEpoch(paid, false) == Ok(c) ==>
              && LocalDecision(p, b, st) == AdoptForward(st.epoch) && Dominates(MarksOf(c), b)
              && Seeded(b, MarksOf(c), st.epoch).(counters := c.counters) == c
              && multiset(Seeded(b, MarksOf(c), st.epoch).counters) == multiset(c.counters)
    ensures OperationCandidate(b, lane, counter, c) ==>
              LocalDecision(p, b, st) == ReconcileDecision.FailClosed(StructuralGap)
  {
    FreshIsCurrent(p, b, st);
    var paid := b.(faucet := b.faucet.(cumulativeNativeSpend := cumulative, lifetimeSpend := lifetime));
    if LessEq(b.faucet.cumulativeNativeSpend, cumulative) && LessEq(b.faucet.lifetimeSpend, lifetime)
       && AdvancedEpoch(paid, false) == Ok(c)
    {
      EpochBumpKeepsMarks(p, paid, false);
      DominanceReflexive(b);
      SortedCountersReadBack(b);
      SortIsPermutation(b.counters);
    }
  }

  /** The marks of a valid body read back as its sorted counter table. */
  lemma {:induction false} SortedCountersReadBack(b: KeystoreBody)
    requires ValidBody(b)
    ensures CountersOf(b.config.environmentIdentifier, MarksOf(b).rows) == SortRows(b.counters)
  {
    var cs := SortRows(b.counters);
    var back := CountersOf(b.config.environmentIdentifier, RowsOf(cs));
    SortIsPermutation(b.counters);
    forall i | 0 <= i < |cs| ensures back[i] == cs[i] {
      SortMembers(b.counters, cs[i]);
    }
  }

  /** Only what sealed is proposed, so all that is on record fits a marks reply. */
  ghost predicate AllFit(w: World) {
    && (forall i | 0 <= i < |w.ledger| && w.ledger[i].forged.None? :: MarksFit(w.ledger[i].body))
    && forall e, n | (e, n) in w.proposals :: MarksFit(e.body)
  }

  lemma {:induction false} RunFits(p: Primitives, ws: seq<World>, steps: seq<Step>)
    requires Run(p, ws, steps)
    ensures AllFit(ws[|steps|])
    decreases |steps|
  {
    hide MarksFit, ValidBody, Enabled, After;
    if steps != [] {
      var n := |steps| - 1;
      RunPrefix(p, ws, steps, n);
      RunFits(p, ws[..n + 1], steps[..n]);
      StepFits(p, ws[n], steps[n]);
    }
  }

  lemma {:induction false} StepFits(p: Primitives, w: World, s: Step)
    requires AllFit(w) && w.ledger != [] && Enabled(p, w, s)
    ensures AllFit(After(p, w, s))
  {
    hide MarksFit, ValidBody, OperationCandidate, Describes, CanAdopt, CanReady, Accepts, Restored, CapLane,
        CommitAckVerdict, DecodedCommitAck, WasSigned, ProposalFor, AckStatement, SameRecord, Appends;
  }

  /**
    Whatever body of the anchor's structural version the host hands back, after any genuine run: the
    body precedes the anchor's record, and an anchor that can sign can answer honestly. So every
    handshake that it answers is Ready at the anchor's state, after at most two freshness requests.
   */
  lemma {:induction false} EmittedBodiesBoot(p: Primitives, ws: seq<World>, steps: seq<Step>, b: KeystoreBody,
      r: AnchorResponse, sign: bytes -> bytes64, left: nat, last: string, log: seq<Exchange>)
    requires Run(p, ws, steps) && Genuine(steps) && CollisionFree(p, ws[|steps|]) && ws[|steps|].ledger != []
    requires b in ws[|steps|].emitted && Describes(p, ws[|steps|], r)
    requires b.structuralVersion == r.structuralVersion
    requires SignsFor(p, sign, b.config.anchorRoot)
    ensures var m := MarksOf(Last(ws[|steps|]));
            var t := HonestResponder(sign, m, StateOf(r));
            && EarlierBody(p, b, StateOf(r), m) && HonestAnchor(p, t, b, StateOf(r), m)
            && (left >= 2 && Handshake(p, true, b, left, last, log).Some?
                && (forall i | 0 <= i < |log| :: AnsweredBy(t, log[i]))
                ==> Handshake(p, true, b, left, last, log).value.0 == DriverReady(StateOf(r)) && Requests(log) <= 2)
  {
    var w := ws[|steps|];
    RunKeepsInv(p, ws, steps);
    RunFits(p, ws, steps);
    EmittedIsEarlier(p, w, b, r);
    assert MarksFit(w.ledger[|w.ledger| - 1].body);
    InvLedger(p, w);
    hide Run, Inv, ValidBody, MarksOf, LegalMarks, DigestOf, SignsFor, EarlierBody, MarksPayload, HonestAnchor,
        Handshake, AnsweredBy, HonestResponder;
    assert ValidBody(Last(w)) && BothOrNeither(r);
    var m, st := MarksOf(Last(w)), StateOf(r);
    ValidBodyHasLegalMarks(Last(w));
    EarlierIsValid(p, b, st, m);
    HonestResponderExists(p, sign, b, st, m);
    var t := HonestResponder(sign, m, st);
    if left >= 2 && Handshake(p, true, b, left, last, log).Some? && forall i | 0 <= i < |log| :: AnsweredBy(t, log[i]) {
      AnsweredIsHonest(p, t, b, st, m, log);
      HonestHandshake(p, b, left, last, st, m, log);
    }
  }

  /**
    Spends never fall: after any genuine run, the live body's totals are at least those of every record
    of its structural version up to its epoch. Only an operation with a capability may lower them.
   */
  lemma {:induction false} SpendsNeverFall(p: Primitives, ws: seq<World>, steps: seq<Step>, i: nat)
    requires Run(p, ws, steps) && Genuine(steps) && CollisionFree(p, ws[|steps|])
    requires ws[|steps|].live.Some? && i < |ws[|steps|].ledger|
    requires ws[|steps|].ledger[i].body.structuralVersion == ws[|steps|].live.value.structuralVersion
    requires ws[|steps|].ledger[i].body.freshnessEpoch <= ws[|steps|].live.value.freshnessEpoch
    ensures var b, c := ws[|steps|].ledger[i].body, ws[|steps|].live.value;
            && FromBE(b.faucet.cumulativeNativeSpend) <= FromBE(c.faucet.cumulativeNativeSpend)
            && FromBE(b.faucet.lifetimeSpend) <= FromBE(c.faucet.lifetimeSpend)
            && b.strictRecoveryCounter <= c.strictRecoveryCounter
  {
    var w := ws[|steps|];
    RunKeepsInv(p, ws, steps);
    LiveIsVouched(p, w);
    InvLedger(p, w);
    hide Run, Inv, CollisionFree, LedgerOk, Vouched, FromBE, Enabled, Genuine;
    VouchedSpends(w, w.live.value, i);
  }

  lemma {:induction false} VouchedSpends(w: World, c: KeystoreBody, i: nat)
    requires LedgerOk(w) && Vouched(w, c) && i < |w.ledger|
    requires w.ledger[i].body.structuralVersion == c.structuralVersion
    requires w.ledger[i].body.freshnessEpoch <= c.freshnessEpoch
    ensures var b := w.ledger[i].body;
            && FromBE(b.faucet.cumulativeNativeSpend) <= FromBE(c.faucet.cumulativeNativeSpend)
            && FromBE(b.faucet.lifetimeSpend) <= FromBE(c.faucet.lifetimeSpend)
            && b.strictRecoveryCounter <= c.strictRecoveryCounter
  {
    hide LedgerOk, Vouched, Dominates, FromBE, MarksOf;
    VouchedDominates(w, c, i);
    DominatedSpends(MarksOf(c), w.ledger[i].body, c);
  }

  /** A vouched body's marks dominate every earlier record of its structural version. */
  lemma {:induction false} VouchedDominates(w: World, c: KeystoreBody, i: nat)
    requires LedgerOk(w) && Vouched(w, c) && i < |w.ledger|
    requires w.ledger[i].body.structuralVersion == c.structuralVersion
    requires w.ledger[i].body.freshnessEpoch <= c.freshnessEpoch
    ensures Dominates(MarksOf(c), w.ledger[i].body)
  {
    var j := VouchedIndex(w, c, i);
    hide LedgerOk, Vouched, Dominates, MarksOf;
    RecordsDominate(w, i, j);
  }

  /** Its own record, which does not precede that one. */
  lemma {:induction false} VouchedIndex(w: World, c: KeystoreBody, i: nat) returns (j: nat)
    requires LedgerOk(w) && Vouched(w, c) && i < |w.ledger|
    requires w.ledger[i].body.freshnessEpoch <= c.freshnessEpoch
    ensures i <= j < |w.ledger| && MarksOf(w.ledger[j].body) == MarksOf(c)
    ensures w.ledger[j].body.structuralVersion == c.structuralVersion
  {
    hide ValidBody, LaneHigh, StepUp, MarksOf;
    j := c.freshnessEpoch - Base(w);
  }

  lemma {:induction false} DominatedSpends(m: DecodedMarks, b: KeystoreBody, c: KeystoreBody)
    requires Dominates(m, b) && m == MarksOf(c)
    ensures FromBE(b.faucet.cumulativeNativeSpend) <= FromBE(c.faucet.cumulativeNativeSpend)
    ensures FromBE(b.faucet.lifetimeSpend) <= FromBE(c.faucet.lifetimeSpend)
    ensures b.strictRecoveryCounter <= c.strictRecoveryCounter
  {
    hide FromBE, SortRows;
    LessEqIsNumeric(b.faucet.cumulativeNativeSpend, c.faucet.cumulativeNativeSpend);
    LessEqIsNumeric(b.faucet.lifetimeSpend, c.faucet.lifetimeSpend);
  }

  lemma {:induction false} LiveIsVouched(p: Primitives, w: World)
    requires Inv(p, w) && w.live.Some?
    ensures Vouched(w, w.live.value)
  {
    hide LedgerOk, ProposalsOk, SignedOk, Vouched;
  }

  lemma {:induction false} EarlierIsValid(p: Primitives, b: KeystoreBody, st: AnchorState, m: DecodedMarks)
    requires EarlierBody(p, b, st, m)
    ensures ValidBody(b)
  {
  }

  lemma {:induction false} EmittedIsEarlier(p: Primitives, w: World, b: KeystoreBody, r: AnchorResponse)
    requires Inv(p, w) && w.ledger != [] && b in w.emitted && Describes(p, w, r)
    requires b.structuralVersion == r.structuralVersion
    ensures EarlierBody(p, b, StateOf(r), MarksOf(Last(w)))
  {
    EmittedVouched(p, w, b);
    InvLedger(p, w);
    EmittedBodiesNeverAhead(p, w, b, r);
    hide Inv, ValidBody, MarksOf, Dominates, LegalResponse, DigestOf, LedgerOk, LocalDecision;
    var i, n := b.freshnessEpoch - Base(w), |w.ledger| - 1;
    RecordsDominate(w, i, n);
    assert At(w, b.freshnessEpoch) == w.ledger[i].body;
    DominanceByMarks(MarksOf(Last(w)), w.ledger[i].body, b);
  }

  lemma {:induction false} EmittedVouched(p: Primitives, w: World, b: KeystoreBody)
    requires Inv(p, w) && b in w.emitted
    ensures Vouched(w, b)
  {
    hide LedgerOk, ProposalsOk, SignedOk, Vouched;
  }
}
