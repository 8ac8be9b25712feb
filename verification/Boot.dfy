/**
  The boot ceremony of one enclave process: the single outstanding freshness challenge, the
  install-once runtime binding, one reconcile attempt, adopting the anchor's marks, the bounded retry
  loop and the serve gate. Hosts, network and anchor are one adversarial `Transport`.
 */
module Boot {
  import opened Wrappers
  import opened Bytes
  import opened Cbor
  import opened Crypto
  import opened Anchor
  import Capabilities
  import opened Keystore
  import opened Marks
  import opened Positional

  datatype Challenge = Challenge(nonce: bytes32, chainId: u64, environmentIdentifier: bytes)

  datatype Binding = Binding(epoch: u64, active: bool)

  datatype ChallengeVerifyError = NoOutstandingChallenge | AnchorRejected(e: AnchorError)

  // ---------------------------------------------------------------- the challenge slot

  /** A call on the process-global challenge slot; `draw` is None when the CSPRNG fails. */
  datatype SlotOp =
    | Issue(chainId: u64, env: bytes, draw: Option<bytes32>)
    | Consume
    | Verify(response: bytes, config: KeystoreConfig)

  /** The slot after one call. Consuming and verifying both empty it, whatever they return. */
  function SlotStep(slot: Option<Challenge>, op: SlotOp): Option<Challenge> {
    match op
    case Issue(chainId, env, draw) => if draw.Some? then Some(Challenge(draw.value, chainId, env)) else slot
    case Consume => None
    case Verify(_, _) => None
  }

  /** What verifying `response` against the slot yields: the state and the nonce it was verified with. */
  ghost function SlotVerdict(p: Primitives, slot: Option<Challenge>, response: bytes, config: KeystoreConfig)
    : Result<(AnchorState, bytes32), ChallengeVerifyError>
  {
    if slot.None? then Err(NoOutstandingChallenge)
    else match AnchorVerdict(p, DecodedResponse(response), slot.value.nonce, config)
         case Ok(st) => Ok((st, slot.value.nonce))
         case Err(e) => Err(AnchorRejected(e))
  }

  function SlotAfter(ops: seq<SlotOp>): Option<Challenge> {
    if ops == [] then None else SlotStep(SlotAfter(ops[..|ops| - 1]), ops[|ops| - 1])
  }

  predicate Drew(op: SlotOp) {
    op.Issue? && op.draw.Some?
  }

  /** Every draw of the run is a new nonce. */
  predicate FreshDraws(ops: seq<SlotOp>) {
    forall i, j | 0 <= i < j < |ops| && Drew(ops[i]) && Drew(ops[j]) :: ops[i].draw != ops[j].draw
  }

  ghost predicate AcceptedAt(p: Primitives, ops: seq<SlotOp>, i: nat)
    requires i < |ops|
  {
    ops[i].Verify? && SlotVerdict(p, SlotAfter(ops[..i]), ops[i].response, ops[i].config).Ok?
  }

  /** An outstanding challenge comes from the latest draw, and no later call has retired it. */
  lemma {:induction false} SlotHoldsLatestDraw(ops: seq<SlotOp>) returns (k: nat)
    requires SlotAfter(ops).Some?
    ensures k < |ops| && Drew(ops[k]) && SlotAfter(ops).value.nonce == ops[k].draw.value
    ensures forall j | k < j < |ops| :: ops[j].Issue? && !Drew(ops[j])
  {
    var n := |ops| - 1;
    if Drew(ops[n]) {
      k := n;
    } else {
      k := SlotHoldsLatestDraw(ops[..n]);
      assert forall j | 0 <= j < n :: ops[..n][j] == ops[j];
    }
  }

  lemma {:induction false} AcceptedEchoes(p: Primitives, slot: Option<Challenge>, response: bytes,
      config: KeystoreConfig)
    requires SlotVerdict(p, slot, response, config).Ok?
    ensures slot.Some? && DecodedResponse(response).Some? && DecodedResponse(response).value.nonce == slot.value.nonce
    ensures SlotVerdict(p, slot, response, config).value.1 == slot.value.nonce
  {
    hide DecodedResponse;
  }

  /** A successful verify echoes the nonce of the latest draw. */
  lemma {:induction false} AcceptedUsesLatestDraw(p: Primitives, ops: seq<SlotOp>, i: nat) returns (k: nat)
    requires i < |ops| && AcceptedAt(p, ops, i)
    ensures k < i && Drew(ops[k]) && DecodedResponse(ops[i].response).Some?
    ensures DecodedResponse(ops[i].response).value.nonce == ops[k].draw.value
    ensures forall j | k < j < i :: ops[j].Issue? && !Drew(ops[j])
  {
    hide DecodedResponse, SlotVerdict;
    AcceptedEchoes(p, SlotAfter(ops[..i]), ops[i].response, ops[i].config);
    k := SlotHoldsLatestDraw(ops[..i]);
    assert forall j | 0 <= j < i :: ops[..i][j] == ops[j];
  }

  /** Two acceptances of one response need one nonce drawn twice. */
  lemma {:induction false} AcceptedTwiceDrawnTwice(p: Primitives, ops: seq<SlotOp>, i: nat, j: nat)
    requires i < j < |ops| && AcceptedAt(p, ops, i) && AcceptedAt(p, ops, j)
    requires ops[i].Verify? && ops[j].Verify? && ops[j].response == ops[i].response
    ensures !FreshDraws(ops)
  {
    hide DecodedResponse, SlotVerdict, AcceptedAt;
    var k := AcceptedUsesLatestDraw(p, ops, i);
    var l := AcceptedUsesLatestDraw(p, ops, j);
    assert l >= i;
    assert ops[k].draw == ops[l].draw;
  }

  /**
    No replay: over any sequence of calls with distinct draws, a response accepted once is never
    accepted again, not even under another configuration.
   */
  lemma {:induction false} NoReplay(p: Primitives, ops: seq<SlotOp>, i: nat, j: nat)
    requires FreshDraws(ops) && i < j < |ops| && ops[i].Verify?
    requires AcceptedAt(p, ops, i) && ops[j].Verify? && ops[j].response == ops[i].response
    ensures !AcceptedAt(p, ops, j)
  {
    hide DecodedResponse, SlotVerdict, AcceptedAt;
    if AcceptedAt(p, ops, j) {
      AcceptedTwiceDrawnTwice(p, ops, i, j);
    }
  }

  // ---------------------------------------------------------------- one reconcile attempt

  datatype BootFailReason =
    | NoChallenge
    | VerifyMalformed
    | VerifySignatureInvalid
    | VerifyScopeMismatch
    | VerifyNonceMismatch
    | BootAnchorBehind
    | BootStructuralGap
    | BootInconsistent
    | BindingInstall

  datatype BootOutcome =
    | Ready(state: AnchorState)
    | AdoptForwardRequired(state: AnchorState, nonce: bytes32)
    | FailedClosed(reason: BootFailReason)

  function MapAnchorError(e: AnchorError): BootFailReason {
    match e
    case Malformed => VerifyMalformed
    case SignatureInvalid => VerifySignatureInvalid
    case ScopeMismatch => VerifyScopeMismatch
    case NonceMismatch => VerifyNonceMismatch
  }

  function MapFailReason(r: FailReason): BootFailReason {
    match r
    case AnchorBehind => BootAnchorBehind
    case StructuralGap => BootStructuralGap
    case Inconsistent => BootInconsistent
  }

  function LocalDecision(p: Primitives, b: KeystoreBody, st: AnchorState): ReconcileDecision {
    Reconcile(b.freshnessEpoch, b.structuralVersion, LocalDigest(p, b), st)
  }

  /** The body is exactly the state the anchor vouches for. */
  predicate Current(p: Primitives, b: KeystoreBody, st: AnchorState) {
    b.freshnessEpoch == st.epoch && b.structuralVersion == st.structuralVersion && LocalDigest(p, b) == st.marksDigest
  }

  /** Every reconcile decision, by what separates it from the others. */
  lemma {:induction false} FreshIsCurrent(p: Primitives, b: KeystoreBody, st: AnchorState)
    ensures LocalDecision(p, b, st).Fresh? <==> Current(p, b, st)
    ensures LocalDecision(p, b, st).AdoptForward? <==>
            b.freshnessEpoch < st.epoch && b.structuralVersion == st.structuralVersion
    ensures LocalDecision(p, b, st) == ReconcileDecision.FailClosed(AnchorBehind) <==> st.epoch < b.freshnessEpoch
    ensures LocalDecision(p, b, st) == ReconcileDecision.FailClosed(StructuralGap) <==>
            b.freshnessEpoch < st.epoch && b.structuralVersion != st.structuralVersion
    ensures LocalDecision(p, b, st) == ReconcileDecision.FailClosed(Inconsistent) <==>
            b.freshnessEpoch == st.epoch && !Current(p, b, st)
  {
    hide LocalDigest;
  }

  // ---------------------------------------------------------------- adopting the anchor's marks

  datatype AdoptForwardFail =
    | MarksVerify(e: MarksError)
    | MarksDecode
    | HashMismatch
    | BeltRegression
    | SeedFailed

  /** The authenticated marks payload of a marks reply, if it verifies for this nonce and epoch. */
  ghost function ReplyPayload(p: Primitives, reply: bytes, config: KeystoreConfig, st: AnchorState, nonce: bytes32)
    : Result<bytes, MarksError>
  {
    MarksVerdict(p, DecodedMarksResp(reply, MAX_MARKS_PAYLOAD_LEN), nonce, st.epoch, config)
  }

  ghost function AdoptVerdict(p: Primitives, reply: bytes, b: KeystoreBody, st: AnchorState, nonce: bytes32)
    : Result<KeystoreBody, AdoptForwardFail>
  {
    match ReplyPayload(p, reply, b.config, st, nonce)
    case Err(e) => Err(MarksVerify(e))
    case Ok(payload) =>
      var d := DecodedMarksPayload(payload, MAX_COUNTER_ENTRIES);
      if d.None? then Err(MarksDecode)
      else
        var candidate := Seeded(b, d.value, st.epoch);
        if !ValidBody(candidate) then Err(SeedFailed)
        else if LocalDigest(p, candidate) != st.marksDigest then Err(HashMismatch)
        else if !Dominates(d.value, b) then Err(BeltRegression)
        else Ok(candidate)
  }

  method ComputeLocalMarksDigest(p: Primitives, b: KeystoreBody) returns (d: bytes32)
    requires ValidBody(b)
    ensures d == LocalDigest(p, b)
  {
    hide MarksPayload;
    var payload := EncodeMarksPayload(b);
    d := (p.sha3)(MarksDomain() + payload);
  }

  /** `execute_adopt_forward`: the candidate is a clone, so the caller's body is never touched here. */
  method ExecuteAdoptForward(p: Primitives, reply: bytes, b: KeystoreBody, st: AnchorState, nonce: bytes32)
    returns (r: Result<KeystoreBody, AdoptForwardFail>)
    ensures r == AdoptVerdict(p, reply, b, st, nonce)
  {
    hide Seeded, LocalDigest, Dominates, ValidBody, DecodedMarksResp;
    var verified := VerifyMarksResponseBytes(p, reply, nonce, st.epoch, b.config);
    if verified.Err? {
      return Err(MarksVerify(verified.error));
    }
    var decoded := StrictDecodeMarksPayload(verified.value, MAX_COUNTER_ENTRIES);
    if decoded.None? {
      return Err(MarksDecode);
    }
    var candidate := new KeystoreCell(b);
    var seeded := SeedMarksForward(candidate, decoded.value, st.epoch);
    if seeded.Err? {
      return Err(SeedFailed);
    }
    var digest := ComputeLocalMarksDigest(p, candidate.body);
    if digest != st.marksDigest {
      return Err(HashMismatch);
    }
    var belt := MarksDominateLocal(decoded.value, b);
    if !belt {
      return Err(BeltRegression);
    }
    r := Ok(candidate.body);
  }

  /**
    A successful adopt carries exactly the marks on the wire: decode, seed and re-encode give back
    the same payload, so the digest the gate compared is the digest of the raw bytes. The adopted
    marks dominate the local ones, nothing but the marks surfaces and the epoch moves, and the
    candidate is current for the same anchor state whenever the structural versions agree.
   */
  lemma {:induction false} AdoptCarriesCommittedMarks(p: Primitives, reply: bytes, b: KeystoreBody, st: AnchorState,
      nonce: bytes32)
    requires AdoptVerdict(p, reply, b, st, nonce).Ok?
    ensures var candidate := AdoptVerdict(p, reply, b, st, nonce).value;
            var payload := ReplyPayload(p, reply, b.config, st, nonce);
            && payload.Ok?
            && MarksPayload(MarksOf(candidate)) == payload.value
            && (p.sha3)(MarksDomain() + payload.value) == st.marksDigest
            && candidate == Seeded(b, MarksOf(candidate), st.epoch)
            && Dominates(MarksOf(candidate), b)
            && ValidBody(candidate)
            && (b.structuralVersion == st.structuralVersion ==> LocalDecision(p, candidate, st) == Fresh)
  {
    hide Seeded, MarksOf, MarksPayload, ValidBody, Dominates, RowsAscend;
    var payload := ReplyPayload(p, reply, b.config, st, nonce).value;
    var m := DecodedMarksPayload(payload, MAX_COUNTER_ENTRIES).value;
    assert MarksBytes(payload, m, MAX_COUNTER_ENTRIES);
    SeedThenRead(b, m, st.epoch);
    SeededKeeps(b, m, st.epoch);
  }

  lemma {:induction false} SeededKeeps(b: KeystoreBody, m: DecodedMarks, epoch: u64)
    ensures var s := Seeded(b, m, epoch);
            && s.structuralVersion == b.structuralVersion && s.freshnessEpoch == epoch
            && s.config == b.config && s.entries == b.entries && s.audit == b.audit
  {
  }

  /** Seeding a valid body never fails, so `SeedFailed` is unreachable for what unsealing hands out. */
  lemma {:induction false} SeedFailUnreachable(p: Primitives, reply: bytes, b: KeystoreBody, st: AnchorState,
      nonce: bytes32)
    requires ValidBody(b)
    ensures AdoptVerdict(p, reply, b, st, nonce) != Err(SeedFailed)
  {
    hide Seeded, ValidBody, Dominates, LocalDigest, LegalMarks;
    var payload := ReplyPayload(p, reply, b.config, st, nonce);
    if payload.Ok? {
      var d := DecodedMarksPayload(payload.value, MAX_COUNTER_ENTRIES);
      if d.Some? {
        assert MarksBytes(payload.value, d.value, MAX_COUNTER_ENTRIES);
        SeedKeepsValid(b, d.value, st.epoch);
      }
    }
  }

  /** Without a digest collision between the two payloads, the adopted marks are the committed ones. */
  lemma {:induction false} AdoptIsTheCommitment(p: Primitives, reply: bytes, b: KeystoreBody, st: AnchorState,
      nonce: bytes32, committed: DecodedMarks)
    requires AdoptVerdict(p, reply, b, st, nonce).Ok?
    requires LegalMarks(committed, MAX_COUNTER_ENTRIES) && DigestOf(p, committed) == st.marksDigest
    requires var adopted := MarksOf(AdoptVerdict(p, reply, b, st, nonce).value);
             DigestOf(p, adopted) == DigestOf(p, committed) ==> MarksPayload(adopted) == MarksPayload(committed)
    ensures AdoptVerdict(p, reply, b, st, nonce).value == Seeded(b, committed, st.epoch)
  {
    hide Seeded, MarksOf, MarksPayload, ValidBody, Dominates, AdoptVerdict, LegalMarks;
    AdoptCarriesCommittedMarks(p, reply, b, st, nonce);
    var candidate := AdoptVerdict(p, reply, b, st, nonce).value;
    ValidBodyHasLegalMarks(candidate);
    LegalMarksSized(MarksOf(candidate), MAX_COUNTER_ENTRIES);
    LegalMarksSized(committed, MAX_COUNTER_ENTRIES);
    MarksPayloadInjective(MarksOf(candidate), committed);
  }

  // ---------------------------------------------------------------- the transport

  function HandshakeDomain(): bytes {
    Ascii("2d-hsm-agent-anchor-handshake-v1")
  }

  /** What the attestation quote commits to; the length prefix is a truncating cast. */
  function ReportDataPreimage(chainId: u64, env: bytes, nonce: bytes32): bytes {
    HandshakeDomain() + (BE(8, chainId) + (BE(4, |env|) + (env + nonce)))
  }

  /** The quote binds scope and nonce for environments of any length, as the nonce has a fixed one. */
  lemma {:induction false} ReportDataInjective(c1: u64, e1: bytes, n1: bytes32, c2: u64, e2: bytes, n2: bytes32)
    requires ReportDataPreimage(c1, e1, n1) == ReportDataPreimage(c2, e2, n2)
    ensures c1 == c2 && e1 == e2 && n1 == n2
  {
    hide BE;
    Pow256Values();
    var d := HandshakeDomain();
    var x1, x2 := BE(4, |e1|) + (e1 + n1), BE(4, |e2|) + (e2 + n2);
    SplitAt(d, BE(8, c1) + x1, d, BE(8, c2) + x2);
    SplitAt(BE(8, c1), x1, BE(8, c2), x2);
    FromBEOfBE(8, c1);
    FromBEOfBE(8, c2);
    SplitAt(BE(4, |e1|), e1 + n1, BE(4, |e2|), e2 + n2);
    SplitAt(e1, n1, e2, n2);
  }

  datatype BootRequest = BootRequest(chainId: u64, environmentIdentifier: bytes, nonce: bytes32, reportData: bytes64)

  function BootRequestFor(p: Primitives, config: KeystoreConfig, nonce: bytes32): BootRequest {
    var env := config.environmentIdentifier;
    BootRequest(config.twodChainId, env, nonce, (p.sha3Wide)(ReportDataPreimage(config.twodChainId, env, nonce)))
  }

  datatype MarksRequest = MarksRequest(chainId: u64, environmentIdentifier: bytes, nonce: bytes32, epoch: u64)

  /** One use of the outside world: a draw of the CSPRNG, or a request and what came back for it. */
  datatype Exchange =
    | Drawn(nonce: Option<bytes32>)
    | Asked(q: BootRequest, reply: Result<bytes, string>)
    | AskedMarks(mq: MarksRequest, marks: Result<bytes, string>)

  /**
    The CSPRNG, the host, the network and the anchor. What comes back is anything at all; the log says
    what was asked and answered. A transport error carries only a log string.
   */
  class Transport {
    ghost var log: seq<Exchange>

    constructor ()
      ensures log == []
    {
      log := [];
    }

    method Draw() returns (r: Option<bytes32>)
      modifies this
      ensures log == old(log) + [Drawn(r)]
    {
      r := *;
      log := log + [Drawn(r)];
    }

    method AnchorRoundTrip(q: BootRequest) returns (r: Result<bytes, string>)
      modifies this
      ensures log == old(log) + [Asked(q, r)]
    {
      r := *;
      log := log + [Asked(q, r)];
    }

    method MarksRoundTrip(q: MarksRequest) returns (r: Result<bytes, string>)
      modifies this
      ensures log == old(log) + [AskedMarks(q, r)]
    {
      r := *;
      log := log + [AskedMarks(q, r)];
    }
  }

  datatype DriverFail =
    | ReconcileFailed(reason: BootFailReason)
    | AdoptForwardFailed(state: AnchorState, cause: AdoptForwardFail)
    | RetriesExhausted(last: string)
    | Unstartable(why: string)

  datatype DriverOutcome = DriverReady(state: AnchorState) | DriverFailed(fail: DriverFail)

  const MAX_BOOT_ATTEMPTS_CEILING: nat := 64

  /** One adopt: the epoch rises, the marks are dominated and nothing else of the body moves. */
  ghost predicate AdoptStep(b: KeystoreBody, c: KeystoreBody) {
    && b.freshnessEpoch < c.freshnessEpoch
    && Dominates(MarksOf(c), b)
    && c == Seeded(b, MarksOf(c), c.freshnessEpoch)
  }

  /** The bodies of a run, adopt by adopt. */
  ghost predicate AdoptChain(bodies: seq<KeystoreBody>) {
    bodies != [] && forall i | 0 <= i < |bodies| - 1 :: AdoptStep(bodies[i], bodies[i + 1])
  }

  /** Chained adopts never lower a lane or a spend and keep everything outside the marks. */
  lemma {:induction false} AdoptChainKeeps(bodies: seq<KeystoreBody>, lane: Lane)
    requires AdoptChain(bodies)
    ensures var b, c := bodies[0], bodies[|bodies| - 1];
            var env := b.config.environmentIdentifier;
            && c.config == b.config && c.entries == b.entries && c.audit == b.audit
            && c.structuralVersion == b.structuralVersion
            && c.freshnessEpoch >= b.freshnessEpoch + (|bodies| - 1)
            && Highest(b.counters, env, lane) <= Highest(c.counters, env, lane)
            && FromBE(b.faucet.cumulativeNativeSpend) <= FromBE(c.faucet.cumulativeNativeSpend)
            && FromBE(b.faucet.lifetimeSpend) <= FromBE(c.faucet.lifetimeSpend)
            && b.strictRecoveryCounter <= c.strictRecoveryCounter
  {
    hide Highest, Dominates, MarksOf, FromBE, Seeded;
    if |bodies| > 1 {
      var n := |bodies| - 1;
      var front := bodies[..n];
      forall i | 0 <= i < |front| - 1 ensures AdoptStep(front[i], front[i + 1]) {
        assert AdoptStep(bodies[i], bodies[i + 1]);
      }
      AdoptChainKeeps(front, lane);
      assert AdoptStep(bodies[n - 1], bodies[n - 1 + 1]);
      DominanceNeverLowers(MarksOf(bodies[n]), bodies[n - 1], bodies[n].freshnessEpoch, lane);
      SeededKeeps(bodies[n - 1], MarksOf(bodies[n]), bodies[n].freshnessEpoch);
    }
  }

  lemma {:induction false} ChainOn(bodies: seq<KeystoreBody>, c: KeystoreBody)
    requires AdoptChain(bodies) && AdoptStep(bodies[|bodies| - 1], c)
    ensures AdoptChain(bodies + [c])
  {
    hide AdoptStep;
    var all := bodies + [c];
    forall i | 0 <= i < |all| - 1 ensures AdoptStep(all[i], all[i + 1]) {
      if i < |bodies| - 1 {
        assert AdoptStep(bodies[i], bodies[i + 1]);
      }
    }
  }

  // ---------------------------------------------------------------- an honest anchor

  /** An anchor that answers every request, over a network that loses nothing. */
  datatype Responder = Responder(reply: BootRequest -> bytes, marks: MarksRequest -> bytes)

  /**
    It stands still at `st` with marks `m` and answers for `b`'s scope accordingly. Marks are asked of
    it only when `b` is behind.
   */
  ghost predicate HonestAnchor(p: Primitives, t: Responder, b: KeystoreBody, st: AnchorState, m: DecodedMarks) {
    && LegalMarks(m, MAX_COUNTER_ENTRIES) && DigestOf(p, m) == st.marksDigest
    && (forall q: BootRequest {:trigger (t.reply)(q)} :: InScope(q.chainId, q.environmentIdentifier, b.config) ==>
          AnchorVerdict(p, DecodedResponse((t.reply)(q)), q.nonce, b.config) == Ok(st))
    && (b.freshnessEpoch < st.epoch ==>
          forall q: MarksRequest {:trigger (t.marks)(q)} ::
            InScope(q.chainId, q.environmentIdentifier, b.config) && q.epoch == st.epoch ==>
              ReplyPayload(p, (t.marks)(q), b.config, st, q.nonce) == Ok(MarksPayload(m)))
  }

  /**
    A body the enclave emitted earlier under that anchor, with the same structural version: not ahead
    of it, equal to its record when the epochs agree, and dominated by its marks when it is behind.
   */
  ghost predicate EarlierBody(p: Primitives, b: KeystoreBody, st: AnchorState, m: DecodedMarks) {
    && ValidBody(b)
    && b.freshnessEpoch <= st.epoch
    && b.structuralVersion == st.structuralVersion
    && (b.freshnessEpoch == st.epoch ==> LocalDigest(p, b) == st.marksDigest)
    && (b.freshnessEpoch < st.epoch ==> Dominates(m, b))
  }

  /** Adopting from an honest anchor succeeds and lands exactly on its state. */
  lemma {:induction false} HonestAdopt(p: Primitives, reply: bytes, b: KeystoreBody, st: AnchorState, nonce: bytes32,
      m: DecodedMarks)
    requires LegalMarks(m, MAX_COUNTER_ENTRIES) && DigestOf(p, m) == st.marksDigest
    requires ReplyPayload(p, reply, b.config, st, nonce) == Ok(MarksPayload(m))
    requires ValidBody(b) && Dominates(m, b) && b.structuralVersion == st.structuralVersion
    ensures AdoptVerdict(p, reply, b, st, nonce) == Ok(Seeded(b, m, st.epoch))
    ensures EarlierBody(p, Seeded(b, m, st.epoch), st, m) && Current(p, Seeded(b, m, st.epoch), st)
  {
    hide Seeded, ValidBody, Dominates, MarksOf, MarksPayload, RowsAscend, ReplyPayload;
    assert MarksBytes(MarksPayload(m), m, MAX_COUNTER_ENTRIES);
    assert DecodedMarksPayload(MarksPayload(m), MAX_COUNTER_ENTRIES) == Some(m);
    SeedKeepsValid(b, m, st.epoch);
    SeedThenRead(b, m, st.epoch);
    SeededKeeps(b, m, st.epoch);
  }

  /** A key holder can sign any message so that it verifies. */
  ghost predicate SignsFor(p: Primitives, sign: bytes -> bytes64, key: bytes32) {
    forall message :: (p.verify)(key, message, sign(message))
  }

  /** The freshness reply of an honest anchor at `st`. */
  function HonestResponse(sign: bytes -> bytes64, st: AnchorState, q: BootRequest): AnchorResponse {
    var unsigned := AnchorResponse(ANCHOR_RESPONSE_VERSION, q.chainId, q.environmentIdentifier, st.epoch,
                                   st.structuralVersion, st.marksDigest, q.nonce, st.chainHeight, st.chainBlockHash,
                                   seq(64, _ => 0));
    unsigned.(signature := sign(AnchorPreimage(unsigned)))
  }

  /** Its marks reply. */
  function HonestMarksReply(sign: bytes -> bytes64, m: DecodedMarks, q: MarksRequest): MarksRespFields {
    var unsigned := MarksRespFields(MARKS_RESP_VERSION, q.chainId, q.environmentIdentifier, q.epoch, q.nonce,
                                    MarksPayload(m), seq(64, _ => 0));
    unsigned.(signature := sign(MarksRespPreimage(unsigned)))
  }

  function HonestResponder(sign: bytes -> bytes64, m: DecodedMarks, st: AnchorState): Responder {
    Responder(q => Encode(MapV(WireEntries(HonestResponse(sign, st, q)))),
              q => Encode(MapV(MarksRespEntries(HonestMarksReply(sign, m, q)))))
  }

  /** What there is to ask of an anchor at `st` with marks `m` by a process that boots `b`. */
  ghost predicate Answerable(p: Primitives, b: KeystoreBody, st: AnchorState, m: DecodedMarks) {
    && LegalMarks(m, MAX_COUNTER_ENTRIES) && DigestOf(p, m) == st.marksDigest
    && (st.chainHeight.Some? <==> st.chainBlockHash.Some?)
    && (b.freshnessEpoch < st.epoch ==> |MarksPayload(m)| <= MAX_MARKS_PAYLOAD_LEN)
  }

  lemma {:induction false} HonestResponseVerifies(p: Primitives, sign: bytes -> bytes64, b: KeystoreBody,
      st: AnchorState, q: BootRequest)
    requires ValidBody(b) && SignsFor(p, sign, b.config.anchorRoot)
    requires st.chainHeight.Some? <==> st.chainBlockHash.Some?
    requires InScope(q.chainId, q.environmentIdentifier, b.config)
    ensures AnchorVerdict(p, DecodedResponse(Encode(MapV(WireEntries(HonestResponse(sign, st, q))))), q.nonce, b.config)
            == Ok(st)
  {
    hide Encode, WireEntries, AnchorPreimage, ValidUtf8, DecodedResponse;
    var r := HonestResponse(sign, st, q);
    Capabilities.EnvironmentIsUtf8(b.config.environmentIdentifier);
    PreimageIgnoresSignature(r, seq(64, _ => 0));
    AnchorAcceptsExactly(p, Encode(MapV(WireEntries(r))), q.nonce, b.config, st);
  }

  lemma {:induction false} PreimageIgnoresSignature(r: AnchorResponse, s: bytes64)
    ensures AnchorPreimage(r.(signature := s)) == AnchorPreimage(r)
  {
    hide Encode;
  }

  lemma {:induction false} HonestMarksVerify(p: Primitives, sign: bytes -> bytes64, b: KeystoreBody,
      st: AnchorState, m: DecodedMarks, q: MarksRequest)
    requires ValidBody(b) && SignsFor(p, sign, b.config.anchorRoot) && |MarksPayload(m)| <= MAX_MARKS_PAYLOAD_LEN
    requires InScope(q.chainId, q.environmentIdentifier, b.config) && q.epoch == st.epoch
    ensures ReplyPayload(p, Encode(MapV(MarksRespEntries(HonestMarksReply(sign, m, q)))), b.config, st, q.nonce)
            == Ok(MarksPayload(m))
  {
    hide Encode, ValidUtf8, DecodedMarksResp, MarksPayload;
    var f := HonestMarksReply(sign, m, q);
    Capabilities.EnvironmentIsUtf8(b.config.environmentIdentifier);
    MarksPreimageIgnoresSignature(f, seq(64, _ => 0));
    MarksAcceptsExactly(p, Encode(MapV(MarksRespEntries(f))), q.nonce, st.epoch, b.config, MarksPayload(m));
  }

  lemma {:induction false} MarksPreimageIgnoresSignature(f: MarksRespFields, s: bytes64)
    ensures MarksRespPreimage(f.(signature := s)) == MarksRespPreimage(f)
  {
    hide Encode;
  }

  /**
    The liveness premise can be met exactly when the marks fit a marks reply or none is needed: for
    an anchor that can sign, some responder is honest if and only if `b`'s question is answerable.
   */
  lemma {:induction false} HonestResponderExists(p: Primitives, sign: bytes -> bytes64, b: KeystoreBody,
      st: AnchorState, m: DecodedMarks)
    requires ValidBody(b) && SignsFor(p, sign, b.config.anchorRoot)
    ensures Answerable(p, b, st, m) ==> HonestAnchor(p, HonestResponder(sign, m, st), b, st, m)
    ensures (exists t :: HonestAnchor(p, t, b, st, m)) <==> Answerable(p, b, st, m)
  {
    hide ValidBody, LegalMarks, DigestOf, MarksPayload, DecodedResponse, Encode, AnchorVerdict, ReplyPayload, SignsFor;
    if Answerable(p, b, st, m) {
      var t := HonestResponder(sign, m, st);
      forall q: BootRequest | InScope(q.chainId, q.environmentIdentifier, b.config)
        ensures AnchorVerdict(p, DecodedResponse((t.reply)(q)), q.nonce, b.config) == Ok(st)
      {
        HonestResponseVerifies(p, sign, b, st, q);
      }
      forall q: MarksRequest | InScope(q.chainId, q.environmentIdentifier, b.config) && q.epoch == st.epoch
                               && |MarksPayload(m)| <= MAX_MARKS_PAYLOAD_LEN
        ensures ReplyPayload(p, (t.marks)(q), b.config, st, q.nonce) == Ok(MarksPayload(m))
      {
        HonestMarksVerify(p, sign, b, st, m, q);
      }
    }
    forall t | HonestAnchor(p, t, b, st, m) ensures Answerable(p, b, st, m) {
      HonestIsAnswerable(p, t, b, st, m);
    }
  }

  /** An honest anchor's state names both chain fields or neither, and its marks fit if they are asked for. */
  lemma {:induction false} HonestIsAnswerable(p: Primitives, t: Responder, b: KeystoreBody, st: AnchorState,
      m: DecodedMarks)
    requires HonestAnchor(p, t, b, st, m)
    ensures Answerable(p, b, st, m)
  {
    hide LegalMarks, DigestOf, MarksPayload, DecodedResponse, DecodedMarksResp, Encode;
    var nonce := BE(32, 0);
    var q := BootRequestFor(p, b.config, nonce);
    AnchorAcceptsExactly(p, (t.reply)(q), nonce, b.config, st);
    if b.freshnessEpoch < st.epoch {
      var q' := MarksRequestFor(b.config, nonce, st.epoch);
      MarksAcceptsExactly(p, (t.marks)(q'), nonce, st.epoch, b.config, MarksPayload(m));
    }
  }

  /** The exchange went through, with this responder's answer. */
  predicate AnsweredBy(t: Responder, e: Exchange) {
    match e
    case Drawn(nonce) => nonce.Some?
    case Asked(q, reply) => reply == Ok((t.reply)(q))
    case AskedMarks(q, marks) => marks == Ok((t.marks)(q))
  }

  /** Whatever a run that boots `b` asks an honest responder is answered honestly. */
  lemma {:induction false} AnsweredIsHonest(p: Primitives, t: Responder, b: KeystoreBody, st: AnchorState,
      m: DecodedMarks, log: seq<Exchange>)
    requires HonestAnchor(p, t, b, st, m) && (forall i | 0 <= i < |log| :: AnsweredBy(t, log[i]))
    ensures HonestLog(p, b.config, b.freshnessEpoch < st.epoch, st, m, log)
  {
    hide DecodedResponse, AnchorVerdict, ReplyPayload, LegalMarks, DigestOf;
  }

  lemma {:induction false} EarlierDecision(p: Primitives, b: KeystoreBody, st: AnchorState, m: DecodedMarks)
    requires EarlierBody(p, b, st, m)
    ensures b.freshnessEpoch == st.epoch ==> LocalDecision(p, b, st) == Fresh
    ensures b.freshnessEpoch != st.epoch ==>
              LocalDecision(p, b, st) == AdoptForward(st.epoch) && b.freshnessEpoch < st.epoch
  {
    hide LocalDigest, ValidBody, Dominates;
  }

  lemma {:induction false} AdoptIsValid(p: Primitives, reply: bytes, b: KeystoreBody, st: AnchorState, nonce: bytes32)
    requires AdoptVerdict(p, reply, b, st, nonce).Ok?
    ensures ValidBody(AdoptVerdict(p, reply, b, st, nonce).value)
    ensures AdoptVerdict(p, reply, b, st, nonce).value.config == b.config
  {
    hide AdoptVerdict, MarksOf, Dominates, ValidBody, Seeded, MarksPayload, LocalDecision;
    AdoptCarriesCommittedMarks(p, reply, b, st, nonce);
    SeededKeeps(b, MarksOf(AdoptVerdict(p, reply, b, st, nonce).value), st.epoch);
  }

  lemma {:induction false} AdoptIsStep(p: Primitives, reply: bytes, b: KeystoreBody, st: AnchorState, nonce: bytes32)
    requires AdoptVerdict(p, reply, b, st, nonce).Ok? && b.freshnessEpoch < st.epoch
    ensures var c := AdoptVerdict(p, reply, b, st, nonce).value;
            AdoptStep(b, c) && ValidBody(c) && c.config == b.config
  {
    hide AdoptVerdict, MarksOf, Dominates, ValidBody, Seeded, MarksPayload, LocalDecision;
    AdoptCarriesCommittedMarks(p, reply, b, st, nonce);
    var c := AdoptVerdict(p, reply, b, st, nonce).value;
    SeededKeeps(b, MarksOf(c), st.epoch);
  }

  // ---------------------------------------------------------------- the handshake, over its log

  /** What `boot_reconcile` says of a reply; `free` is whether the binding slot is empty. */
  ghost function ReconcileVerdict(p: Primitives, slot: Option<Challenge>, free: bool, response: bytes,
                                  b: KeystoreBody): BootOutcome
  {
    match SlotVerdict(p, slot, response, b.config)
    case Err(NoOutstandingChallenge) => FailedClosed(NoChallenge)
    case Err(AnchorRejected(e)) => FailedClosed(MapAnchorError(e))
    case Ok((st, nonce)) =>
      match LocalDecision(p, b, st)
      case Fresh => if free then Ready(st) else FailedClosed(BindingInstall)
      case AdoptForward(_) => AdoptForwardRequired(st, nonce)
      case FailClosed(reason) => FailedClosed(MapFailReason(reason))
  }

  function ChallengeFor(config: KeystoreConfig, nonce: bytes32): Challenge {
    Challenge(nonce, config.twodChainId, config.environmentIdentifier)
  }

  function MarksRequestFor(config: KeystoreConfig, nonce: bytes32, epoch: u64): MarksRequest {
    MarksRequest(config.twodChainId, config.environmentIdentifier, nonce, epoch)
  }

  /** How a round ends: with the run's outcome, or with a body and a note for the next round. */
  datatype RoundResult = Stop(outcome: DriverOutcome) | Again(body: KeystoreBody, note: string)

  const NO_RANDOMNESS: string := "CSPRNG unavailable to draw the freshness nonce"
  const NO_ATTEMPT: string := "no attempt completed"
  const ADOPTED: string := "adopted forward; re-run budget exhausted before Fresh"

  /**
    The round that `log` begins with, and how many exchanges it takes: one draw, one freshness request
    under the drawn nonce, and one marks request if an adopt is due. None if `log` begins otherwise.
   */
  ghost function Round(p: Primitives, free: bool, b: KeystoreBody, log: seq<Exchange>): Option<(RoundResult, nat)> {
    if log == [] || !log[0].Drawn? then None
    else if log[0].nonce.None? then Some((Stop(DriverFailed(Unstartable(NO_RANDOMNESS))), 1))
    else
      var nonce := log[0].nonce.value;
      if |log| < 2 || !log[1].Asked? || log[1].q != BootRequestFor(p, b.config, nonce) then None
      else match log[1].reply
           case Err(e) => Some((Again(b, e), 2))
           case Ok(response) =>
             match ReconcileVerdict(p, Some(ChallengeFor(b.config, nonce)), free, response, b)
             case Ready(st) => Some((Stop(DriverReady(st)), 2))
             case FailedClosed(reason) => Some((Stop(DriverFailed(ReconcileFailed(reason))), 2))
             case AdoptForwardRequired(st, echoed) => AdoptRound(p, b, st, echoed, log)
  }

  /** The rest of a round that has to adopt. */
  ghost function AdoptRound(p: Primitives, b: KeystoreBody, st: AnchorState, nonce: bytes32, log: seq<Exchange>)
    : Option<(RoundResult, nat)>
  {
    if |log| < 3 || !log[2].AskedMarks? || log[2].mq != MarksRequestFor(b.config, nonce, st.epoch) then None
    else match log[2].marks
         case Err(e) => Some((Again(b, e), 3))
         case Ok(reply) =>
           match AdoptVerdict(p, reply, b, st, nonce)
           case Err(cause) => Some((Stop(DriverFailed(AdoptForwardFailed(st, cause))), 3))
           case Ok(c) => Some((Again(c, ADOPTED), 3))
  }

  /**
    The run that `log` is, with `left` rounds to go: outcome and final body. None if `log` is not
    exactly the exchanges of such a run, none missing and none to spare.
   */
  ghost function Handshake(p: Primitives, free: bool, b: KeystoreBody, left: nat, last: string, log: seq<Exchange>)
    : Option<(DriverOutcome, KeystoreBody)>
    decreases left
  {
    if left == 0 then (if log == [] then Some((DriverFailed(RetriesExhausted(last)), b)) else None)
    else match Round(p, free, b, log)
         case None => None
         case Some((Stop(outcome), n)) => if |log| == n then Some((outcome, b)) else None
         case Some((Again(c, note), n)) =>
           if n <= |log| then Handshake(p, free, c, left - 1, note, log[n..]) else None
  }

  /** A round takes what it needs and does not look further. */
  lemma {:induction false} RoundPrefix(p: Primitives, free: bool, b: KeystoreBody, log: seq<Exchange>,
      rest: seq<Exchange>)
    requires Round(p, free, b, log).Some? && Round(p, free, b, log).value.1 == |log|
    ensures Round(p, free, b, log + rest) == Round(p, free, b, log)
  {
    hide ReconcileVerdict, AdoptVerdict;
    var all := log + rest;
    assert all[0] == log[0] && (|log| > 1 ==> all[1] == log[1]) && (|log| > 2 ==> all[2] == log[2]);
  }

  lemma {:induction false} OneDraw(p: Primitives, free: bool, b: KeystoreBody, log: seq<Exchange>)
    requires Round(p, free, b, log).Some? && |log| == 1
    ensures Requests(log) == 0
  {
    hide ReconcileVerdict, AdoptVerdict;
    assert log[1..] == [];
  }

  lemma {:induction false} RoundSize(p: Primitives, free: bool, b: KeystoreBody, log: seq<Exchange>)
    requires Round(p, free, b, log).Some?
    ensures 1 <= Round(p, free, b, log).value.1 <= |log|
  {
    hide ReconcileVerdict, AdoptVerdict;
  }

  /** A round that went on leaves the rest of the run to the rest of the log. */
  lemma {:induction false} RoundThenRest(p: Primitives, free: bool, b: KeystoreBody, left: nat, last: string,
      log: seq<Exchange>, rest: seq<Exchange>)
    requires left > 0 && Round(p, free, b, log).Some? && Round(p, free, b, log).value.1 == |log|
    ensures match Round(p, free, b, log).value.0
            case Stop(outcome) => rest == [] ==> Handshake(p, free, b, left, last, log + rest) == Some((outcome, b))
            case Again(c, note) =>
              Handshake(p, free, b, left, last, log + rest) == Handshake(p, free, c, left - 1, note, rest)
  {
    hide Round;
    RoundPrefix(p, free, b, log, rest);
    assert (log + rest)[|log|..] == rest;
  }

  /** After the exchanges `done` the run from `b` stands where a run from `c` with `left` rounds begins. */
  ghost predicate Stands(p: Primitives, free: bool, b: KeystoreBody, max: nat, done: seq<Exchange>,
                         c: KeystoreBody, left: nat, last: string)
  {
    forall rest :: Handshake(p, free, b, max, NO_ATTEMPT, done + rest) == Handshake(p, free, c, left, last, rest)
  }

  lemma {:induction false} StandsAtStart(p: Primitives, free: bool, b: KeystoreBody, max: nat)
    ensures Stands(p, free, b, max, [], b, max, NO_ATTEMPT)
  {
    hide Handshake;
    forall rest
      ensures Handshake(p, free, b, max, NO_ATTEMPT, [] + rest) == Handshake(p, free, b, max, NO_ATTEMPT, rest)
    {
      assert [] + rest == rest;
    }
  }

  lemma {:induction false} StandsAfterRound(p: Primitives, free: bool, b: KeystoreBody, max: nat, done: seq<Exchange>,
      c: KeystoreBody, left: nat, last: string, seg: seq<Exchange>)
    requires Stands(p, free, b, max, done, c, left, last) && left > 0
    requires Round(p, free, c, seg).Some? && Round(p, free, c, seg).value.1 == |seg|
    ensures match Round(p, free, c, seg).value.0
            case Stop(outcome) => Handshake(p, free, b, max, NO_ATTEMPT, done + seg) == Some((outcome, c))
            case Again(d, note) => Stands(p, free, b, max, done + seg, d, left - 1, note)
  {
    hide Handshake, Round;
    RoundThenRest(p, free, c, left, last, seg, []);
    assert seg + [] == seg;
    match Round(p, free, c, seg).value.0
    case Stop(_) =>
    case Again(d, note) =>
      forall rest ensures Handshake(p, free, b, max, NO_ATTEMPT, done + seg + rest)
                          == Handshake(p, free, d, left - 1, note, rest)
      {
        assert done + seg + rest == done + (seg + rest);
        RoundThenRest(p, free, c, left, last, seg, rest);
      }
  }

  lemma {:induction false} StandsAtEnd(p: Primitives, free: bool, b: KeystoreBody, max: nat, done: seq<Exchange>,
      c: KeystoreBody, last: string)
    requires Stands(p, free, b, max, done, c, 0, last)
    ensures Handshake(p, free, b, max, NO_ATTEMPT, done) == Some((DriverFailed(RetriesExhausted(last)), c))
  {
    assert done + [] == done;
    assert Handshake(p, free, c, 0, last, []) == Some((DriverFailed(RetriesExhausted(last)), c));
  }

  // ---------------------------------------------------------------- what every run keeps

  function Requests(log: seq<Exchange>): nat {
    if log == [] then 0 else (if log[0].Asked? then 1 else 0) + Requests(log[1..])
  }

  function MarksRequests(log: seq<Exchange>): nat {
    if log == [] then 0 else (if log[0].AskedMarks? then 1 else 0) + MarksRequests(log[1..])
  }

  lemma {:induction false} RequestsAppend(a: seq<Exchange>, b: seq<Exchange>)
    ensures Requests(a + b) == Requests(a) + Requests(b)
    ensures MarksRequests(a + b) == MarksRequests(a) + MarksRequests(b)
  {
    if a == [] {
      assert a + b == b;
    } else {
      assert (a + b)[1..] == a[1..] + b;
      RequestsAppend(a[1..], b);
    }
  }

  lemma {:induction false} OneOfEach(s: seq<Exchange>)
    requires 1 <= |s| <= 3 && s[0].Drawn? && (|s| > 1 ==> s[1].Asked?) && (|s| > 2 ==> s[2].AskedMarks?)
    ensures Requests(s) <= 1 && MarksRequests(s) <= 1
  {
    var t := s[1..];
    if t != [] {
      assert t[0] == s[1];
      var u := t[1..];
      if u != [] {
        assert u[0] == s[2] && u[1..] == [];
        assert Requests(u) == 0 && MarksRequests(u) == 1;
      }
      assert Requests(t) == 1 && MarksRequests(t) <= 1;
    }
  }

  /** A round asks at most once for freshness and at most once for marks. */
  lemma {:induction false} RoundAsksOnce(p: Primitives, free: bool, b: KeystoreBody, log: seq<Exchange>)
    requires Round(p, free, b, log).Some?
    ensures var n := Round(p, free, b, log).value.1;
            n <= |log| && Requests(log[..n]) <= 1 && MarksRequests(log[..n]) <= 1
  {
    hide ReconcileVerdict, AdoptVerdict, Requests, MarksRequests;
    OneOfEach(log[..Round(p, free, b, log).value.1]);
  }

  /** The count bound: at most `left` freshness requests, and as many marks requests, ever leave. */
  lemma {:induction false} RequestsBounded(p: Primitives, free: bool, b: KeystoreBody, left: nat, last: string,
      log: seq<Exchange>)
    requires Handshake(p, free, b, left, last, log).Some?
    ensures Requests(log) <= left && MarksRequests(log) <= left
    decreases left
  {
    hide Round;
    if left > 0 {
      RoundAsksOnce(p, free, b, log);
      var (result, n) := Round(p, free, b, log).value;
      assert log == log[..n] + log[n..];
      RequestsAppend(log[..n], log[n..]);
      if result.Again? {
        RequestsBounded(p, free, result.body, left - 1, result.note, log[n..]);
      } else {
        assert log[n..] == [];
      }
    }
  }

  /** An adopt, as a round makes one: the epoch rises and nothing outside the marks moves. */
  lemma {:induction false} RoundAdopts(p: Primitives, free: bool, b: KeystoreBody, log: seq<Exchange>)
    requires Round(p, free, b, log).Some? && Round(p, free, b, log).value.0.Again?
    ensures var c := Round(p, free, b, log).value.0.body;
            c.config == b.config && (ValidBody(b) ==> ValidBody(c)) && (c == b || AdoptStep(b, c))
  {
    hide ValidBody, AdoptVerdict, LocalDecision, SlotVerdict;
    var nonce := log[0].nonce.value;
    if log[1].reply.Ok? {
      var v := ReconcileVerdict(p, Some(ChallengeFor(b.config, nonce)), free, log[1].reply.value, b);
      if v.AdoptForwardRequired? {
        FreshIsCurrent(p, b, v.state);
        if log[2].marks.Ok? && AdoptVerdict(p, log[2].marks.value, b, v.state, v.nonce).Ok? {
          AdoptIsStep(p, log[2].marks.value, b, v.state, v.nonce);
        }
      }
    }
  }

  /** The body moves only by adopts; `bodies` are its successive values. */
  lemma {:induction false} HandshakeAdopts(p: Primitives, free: bool, b: KeystoreBody, left: nat, last: string,
      log: seq<Exchange>) returns (bodies: seq<KeystoreBody>)
    requires Handshake(p, free, b, left, last, log).Some?
    ensures AdoptChain(bodies) && bodies[0] == b && |bodies| <= left + 1
    ensures bodies[|bodies| - 1] == Handshake(p, free, b, left, last, log).value.1
    ensures ValidBody(b) ==> ValidBody(bodies[|bodies| - 1])
    decreases left
  {
    hide Round, ValidBody, AdoptStep;
    bodies := [b];
    if left > 0 {
      var (result, n) := Round(p, free, b, log).value;
      if result.Again? {
        RoundAdopts(p, free, b, log);
        var more := HandshakeAdopts(p, free, result.body, left - 1, result.note, log[n..]);
        if result.body == b {
          bodies := more;
        } else {
          bodies := [b] + more;
          forall i | 0 <= i < |bodies| - 1 ensures AdoptStep(bodies[i], bodies[i + 1]) {
            if i > 0 {
              assert AdoptStep(more[i - 1], more[i - 1 + 1]);
            }
          }
        }
      }
    }
  }

  /** A freshness reply that was verified and found to be the anchor's, about this configuration. */
  ghost predicate Verified(p: Primitives, config: KeystoreConfig, e: Exchange) {
    e.Asked? && e.reply.Ok? && AnchorVerdict(p, DecodedResponse(e.reply.value), e.q.nonce, config).Ok?
  }

  /** A reply that arrived, was verified and was rejected. */
  ghost predicate Rejected(p: Primitives, config: KeystoreConfig, e: Exchange) {
    e.Asked? && e.reply.Ok? && AnchorVerdict(p, DecodedResponse(e.reply.value), e.q.nonce, config).Err?
  }

  /** What the exchanges of a run are, one by one. */
  ghost predicate ExchangeOk(p: Primitives, config: KeystoreConfig, log: seq<Exchange>, i: nat)
    requires i < |log|
  {
    && (log[i].Drawn? && log[i].nonce.None? ==> i == |log| - 1)
    && (log[i].Asked? ==>
          && i > 0 && log[i - 1].Drawn? && log[i - 1].nonce.Some?
          && log[i].q == BootRequestFor(p, config, log[i - 1].nonce.value))
    && (log[i].Asked? && log[i].reply.Ok? && i < |log| - 1 ==> Verified(p, config, log[i]) && log[i + 1].AskedMarks?)
    && (log[i].AskedMarks? ==>
          && i > 0 && Verified(p, config, log[i - 1])
          && log[i].mq == MarksRequestFor(config, log[i - 1].q.nonce,
                AnchorVerdict(p, DecodedResponse(log[i - 1].reply.value), log[i - 1].q.nonce, config).value.epoch))
    && (log[i].AskedMarks? && log[i].marks.Ok? && i < |log| - 1 ==>
          MarksVerdict(p, DecodedMarksResp(log[i].marks.value, MAX_MARKS_PAYLOAD_LEN), log[i].mq.nonce, log[i].mq.epoch,
                       config).Ok?)
  }

  lemma {:induction false} RoundExchanges(p: Primitives, free: bool, b: KeystoreBody, log: seq<Exchange>, i: nat)
    requires Round(p, free, b, log).Some?
    requires var (result, n) := Round(p, free, b, log).value;
             i < n <= |log| && (result.Stop? ==> |log| == n)
    requires var n := Round(p, free, b, log).value.1;
             n < |log| ==> log[n].Drawn?
    ensures ExchangeOk(p, b.config, log, i)
  {
    hide DecodedResponse, DecodedMarksResp, LocalDecision, AnchorVerdict, MarksVerdict, MarksPayload;
  }

  /** A run that goes on begins its next round with a draw. */
  lemma {:induction false} BeginsWithDraw(p: Primitives, free: bool, b: KeystoreBody, left: nat, last: string,
      log: seq<Exchange>)
    requires Handshake(p, free, b, left, last, log).Some? && log != []
    ensures log[0].Drawn?
  {
    hide ReconcileVerdict, AdoptVerdict;
  }

  /**
    No grinding. Every freshness request carries the nonce drawn just before it; a reply that arrives is
    either the last exchange of the run, or it verified and the marks request for its epoch follows; and
    the same for marks replies. So at most one reply is rejected, and nothing is asked after it.
   */
  lemma {:induction false} ExchangesInOrder(p: Primitives, free: bool, b: KeystoreBody, left: nat, last: string,
      log: seq<Exchange>, i: nat)
    requires Handshake(p, free, b, left, last, log).Some? && i < |log|
    ensures ExchangeOk(p, b.config, log, i)
    ensures Rejected(p, b.config, log[i]) ==> i == |log| - 1
    decreases left
  {
    hide Round, ExchangeOk;
    var (result, n) := Round(p, free, b, log).value;
    RoundSize(p, free, b, log);
    if result.Again? && n < |log| {
      BeginsWithDraw(p, free, result.body, left - 1, result.note, log[n..]);
    }
    if i < n {
      RoundExchanges(p, free, b, log, i);
    } else {
      RoundAdopts(p, free, b, log);
      ExchangesInOrder(p, free, result.body, left - 1, result.note, log[n..], i - n);
      ShiftedExchange(p, b.config, log, n, i);
    }
    if Rejected(p, b.config, log[i]) {
      RejectedIsLast(p, b.config, log, i);
    }
  }

  lemma {:induction false} ShiftedExchange(p: Primitives, config: KeystoreConfig, log: seq<Exchange>, n: nat, i: nat)
    requires n <= i < |log| && ExchangeOk(p, config, log[n..], i - n)
    ensures ExchangeOk(p, config, log, i)
  {
    hide DecodedResponse, DecodedMarksResp, AnchorVerdict, MarksVerdict;
    var rest := log[n..];
    assert rest[i - n] == log[i];
    assert i > n ==> rest[i - n - 1] == log[i - 1];
    assert i < |log| - 1 ==> rest[i - n + 1] == log[i + 1];
  }

  lemma {:induction false} RejectedIsLast(p: Primitives, config: KeystoreConfig, log: seq<Exchange>, i: nat)
    requires i < |log| && ExchangeOk(p, config, log, i) && Rejected(p, config, log[i])
    ensures i == |log| - 1
  {
    hide DecodedResponse, DecodedMarksResp, AnchorVerdict, MarksVerdict;
  }

  /** Ready means: the slot was free, and the last reply proves the body that is left to be current. */
  lemma {:induction false} ReadyIsCurrent(p: Primitives, free: bool, b: KeystoreBody, left: nat, last: string,
      log: seq<Exchange>)
    requires Handshake(p, free, b, left, last, log).Some? && Handshake(p, free, b, left, last, log).value.0.DriverReady?
    ensures var (outcome, c) := Handshake(p, free, b, left, last, log).value;
            var e := log[|log| - 1];
            && free && Current(p, c, outcome.state) && log != [] && Verified(p, b.config, e)
            && AnchorVerdict(p, DecodedResponse(e.reply.value), e.q.nonce, b.config) == Ok(outcome.state)
    decreases left
  {
    hide DecodedResponse, AnchorVerdict, AdoptVerdict, Current, LocalDecision;
    var (result, n) := Round(p, free, b, log).value;
    RoundSize(p, free, b, log);
    if result.Again? {
      RoundAdopts(p, free, b, log);
      ReadyIsCurrent(p, free, result.body, left - 1, result.note, log[n..]);
    } else {
      FreshIsCurrent(p, b, result.outcome.state);
    }
  }

  /**
    Every exchange went through and was answered by an anchor that stands still at `st`, and at marks
    `m` if the run began `behind`.
   */
  ghost predicate HonestLog(p: Primitives, config: KeystoreConfig, behind: bool, st: AnchorState, m: DecodedMarks,
                            log: seq<Exchange>)
  {
    && LegalMarks(m, MAX_COUNTER_ENTRIES) && DigestOf(p, m) == st.marksDigest
    && forall i | 0 <= i < |log| :: HonestExchange(p, config, behind, st, m, log[i])
  }

  ghost predicate HonestExchange(p: Primitives, config: KeystoreConfig, behind: bool, st: AnchorState, m: DecodedMarks,
                                 e: Exchange)
  {
    match e
    case Drawn(nonce) => nonce.Some?
    case Asked(q, reply) =>
      InScope(q.chainId, q.environmentIdentifier, config) ==>
        reply.Ok? && AnchorVerdict(p, DecodedResponse(reply.value), q.nonce, config) == Ok(st)
    case AskedMarks(q, marks) =>
      behind && InScope(q.chainId, q.environmentIdentifier, config) && q.epoch == st.epoch ==>
        marks.Ok? && ReplyPayload(p, marks.value, config, st, q.nonce) == Ok(MarksPayload(m))
  }

  /** The round of an honest anchor: Ready if the body is current, and otherwise an adopt that makes it so. */
  lemma {:induction false} HonestRound(p: Primitives, b: KeystoreBody, behind: bool, st: AnchorState,
      m: DecodedMarks, log: seq<Exchange>)
    requires Round(p, true, b, log).Some? && HonestLog(p, b.config, behind, st, m, log) && EarlierBody(p, b, st, m)
    requires b.freshnessEpoch < st.epoch ==> behind
    ensures var c := Seeded(b, m, st.epoch);
            Round(p, true, b, log).value.0
            == if b.freshnessEpoch == st.epoch then Stop(DriverReady(st)) else Again(c, ADOPTED)
    ensures b.freshnessEpoch != st.epoch ==>
              EarlierBody(p, Seeded(b, m, st.epoch), st, m) && Seeded(b, m, st.epoch).freshnessEpoch == st.epoch
  {
    hide DecodedResponse, AdoptVerdict, Seeded, ReplyPayload, MarksPayload, DigestOf, LegalMarks, ValidBody, Dominates,
        LocalDigest, LocalDecision, EarlierBody;
    assert HonestExchange(p, b.config, behind, st, m, log[0]) && HonestExchange(p, b.config, behind, st, m, log[1]);
    EarlierDecision(p, b, st, m);
    SeededKeeps(b, m, st.epoch);
    if b.freshnessEpoch != st.epoch {
      assert HonestExchange(p, b.config, behind, st, m, log[2]);
      EarlierIsDominated(p, b, st, m);
      HonestAdopt(p, log[2].marks.value, b, st, log[0].nonce.value, m);
    }
  }

  lemma {:induction false} EarlierIsDominated(p: Primitives, b: KeystoreBody, st: AnchorState, m: DecodedMarks)
    requires EarlierBody(p, b, st, m)
    ensures ValidBody(b) && b.structuralVersion == st.structuralVersion
    ensures b.freshnessEpoch < st.epoch ==> Dominates(m, b)
  {
    hide ValidBody, Dominates, LocalDigest;
  }

  /**
    Liveness: with an honest anchor, no transport faults, a working CSPRNG, an empty slot and two rounds
    to go, booting an earlier body is Ready at the anchor's state after one freshness request if the
    body is current and after two otherwise.
   */
  lemma {:induction false} HonestHandshake(p: Primitives, b: KeystoreBody, left: nat, last: string,
      st: AnchorState, m: DecodedMarks, log: seq<Exchange>)
    requires Handshake(p, true, b, left, last, log).Some? && left >= 2
    requires HonestLog(p, b.config, b.freshnessEpoch < st.epoch, st, m, log) && EarlierBody(p, b, st, m)
    ensures Handshake(p, true, b, left, last, log).value.0 == DriverReady(st)
    ensures Requests(log) <= if b.freshnessEpoch == st.epoch then 1 else 2
  {
    hide Round, HonestExchange, EarlierBody, Seeded, LegalMarks, DigestOf;
    var (result, n) := Round(p, true, b, log).value;
    var behind := b.freshnessEpoch < st.epoch;
    HonestRound(p, b, behind, st, m, log);
    RoundAsksOnce(p, true, b, log);
    assert log == log[..n] + log[n..];
    RequestsAppend(log[..n], log[n..]);
    if b.freshnessEpoch != st.epoch {
      RoundAdopts(p, true, b, log);
      var c, rest := result.body, log[n..];
      forall i | 0 <= i < |rest| ensures HonestExchange(p, c.config, behind, st, m, rest[i]) {
        assert rest[i] == log[n + i];
      }
      HonestRound(p, c, behind, st, m, rest);
      RoundAsksOnce(p, true, c, rest);
      assert rest[..|rest|] == rest;
    } else {
      assert log[..n] == log;
    }
  }

  // ---------------------------------------------------------------- the process

  class EnclaveProcess {
    var challenge: Option<Challenge>
    var binding: Option<Binding>

    /** Only active bindings are ever installed. */
    ghost predicate Valid()
      reads this
    {
      binding.Some? ==> binding.value.active
    }

    constructor ()
      ensures Valid() && challenge == None && binding == None
    {
      challenge := None;
      binding := None;
    }

    method IssueChallenge(chainId: u64, env: bytes, draw: Option<bytes32>) returns (r: Option<Challenge>)
      modifies this`challenge
      ensures challenge == SlotStep(old(challenge), Issue(chainId, env, draw))
      ensures r == if draw.Some? then challenge else None
    {
      if draw.None? {
        return None;
      }
      var c := Challenge(draw.value, chainId, env);
      challenge := Some(c);
      r := Some(c);
    }

    method ConsumeOutstandingChallenge() returns (r: Option<Challenge>)
      modifies this`challenge
      ensures r == old(challenge) && challenge == SlotStep(old(challenge), Consume)
    {
      r := challenge;
      challenge := None;
    }

    /** Retire the challenge first, then verify: no outcome leaves it outstanding. */
    method VerifyOutstandingResponse(p: Primitives, response: bytes, config: KeystoreConfig)
      returns (r: Result<(AnchorState, bytes32), ChallengeVerifyError>)
      modifies this`challenge
      ensures challenge == SlotStep(old(challenge), Verify(response, config))
      ensures r == SlotVerdict(p, old(challenge), response, config)
    {
      hide DecodedResponse;
      var c := ConsumeOutstandingChallenge();
      if c.None? {
        return Err(NoOutstandingChallenge);
      }
      var nonce := c.value.nonce;
      var v := VerifyAnchorResponseBytes(p, response, nonce, config);
      if v.Err? {
        return Err(AnchorRejected(v.error));
      }
      r := Ok((v.value, nonce));
    }

    /** Install once, active bindings only. */
    method InstallBinding(b: Binding) returns (ok: bool)
      modifies this`binding
      ensures ok <==> b.active && old(binding).None?
      ensures binding == if ok then Some(b) else old(binding)
    {
      if !b.active {
        return false;
      }
      if binding.Some? {
        return false;
      }
      binding := Some(b);
      ok := true;
    }

    predicate IsConfigured()
      reads this
    {
      binding.Some? && binding.value.active
    }

    /**
      `boot_reconcile_anti_rollback`. Ready exactly when the verified state is the body's own and no
      binding was there before; the binding moves on that arm and on no other.
     */
    method BootReconcile(p: Primitives, response: bytes, b: KeystoreBody) returns (r: BootOutcome)
      requires Valid() && ValidBody(b)
      modifies this
      ensures Valid() && challenge == None
      ensures binding == if r.Ready? then Some(Binding(r.state.epoch, true)) else old(binding)
      ensures r == ReconcileVerdict(p, old(challenge), old(binding).None?, response, b)
    {
      hide SlotVerdict, LocalDigest, ValidBody;
      var v := VerifyOutstandingResponse(p, response, b.config);
      if v.Err? {
        match v.error
        case NoOutstandingChallenge => return FailedClosed(NoChallenge);
        case AnchorRejected(e) => return FailedClosed(MapAnchorError(e));
      }
      var (st, nonce) := v.value;
      var digest := ComputeLocalMarksDigest(p, b);
      var decision := Reconcile(b.freshnessEpoch, b.structuralVersion, digest, st);
      match decision {
        case Fresh =>
          var ok := InstallBinding(Binding(st.epoch, true));
          r := if ok then Ready(st) else FailedClosed(BindingInstall);
        case AdoptForward(_) =>
          r := AdoptForwardRequired(st, nonce);
        case FailClosed(reason) =>
          r := FailedClosed(MapFailReason(reason));
      }
    }

    /**
      One round of the handshake: what it does to the log is a round of the trace function, which also
      says whether the run is over and with what body it goes on.
     */
    method Attempt(p: Primitives, t: Transport, cell: KeystoreCell) returns (step: Option<DriverOutcome>, note: string)
      requires Valid() && ValidBody(cell.body)
      modifies this, cell, t
      ensures Valid() && ValidBody(cell.body) && old(t.log) <= t.log
      ensures var seg := t.log[|old(t.log)|..];
              Round(p, old(binding).None?, old(cell.body), seg)
              == Some((if step.Some? then Stop(step.value) else Again(cell.body, note), |seg|))
      ensures step.Some? ==> cell.body == old(cell.body)
      ensures cell.body.config == old(cell.body).config
      ensures challenge == if |t.log| == |old(t.log)| + 1 then old(challenge) else None
      ensures binding == if step.Some? && step.value.DriverReady? then Some(Binding(step.value.state.epoch, true))
                         else old(binding)
    {
      hide ReconcileVerdict, ValidBody, AdoptVerdict, Dominates, Seeded, MarksOf, LocalDecision, Current, AdoptStep,
          BootRequestFor;
      note := "";
      var config := cell.body.config;
      var nonce := t.Draw();
      var issued := IssueChallenge(config.twodChainId, config.environmentIdentifier, nonce);
      if issued.None? {
        return Some(DriverFailed(Unstartable(NO_RANDOMNESS))), note;
      }
      var response := t.AnchorRoundTrip(BootRequestFor(p, config, issued.value.nonce));
      if response.Err? {
        var _ := ConsumeOutstandingChallenge();
        return None, response.error;
      }
      var outcome := BootReconcile(p, response.value, cell.body);
      match outcome {
        case Ready(state) =>
          step := Some(DriverReady(state));
        case AdoptForwardRequired(state, echoed) =>
          var marks := t.MarksRoundTrip(MarksRequestFor(config, echoed, state.epoch));
          if marks.Err? {
            return None, marks.error;
          }
          var seeded := ExecuteAdoptForward(p, marks.value, cell.body, state, echoed);
          if seeded.Err? {
            return Some(DriverFailed(AdoptForwardFailed(state, seeded.error))), note;
          }
          AdoptIsValid(p, marks.value, cell.body, state, echoed);
          cell.body := seeded.value;
          step, note := None, ADOPTED;
        case FailedClosed(reason) =>
          step := Some(DriverFailed(ReconcileFailed(reason)));
      }
    }

    /**
      The bounded boot handshake, over everything the transport may answer. What it adds to the log is
      exactly one run of the trace function, whose outcome and final body it returns; all that is proved
      about such logs is therefore proved about every call. The binding moves on Ready alone, and no
      challenge is left behind once a request was made.
     */
    method RunBootHandshake(p: Primitives, t: Transport, cell: KeystoreCell, maxAttempts: nat)
      returns (outcome: DriverOutcome)
      requires Valid() && ValidBody(cell.body)
      modifies this, cell, t
      ensures Valid() && ValidBody(cell.body) && old(t.log) <= t.log
      ensures var log := t.log[|old(t.log)|..];
              if maxAttempts == 0 || maxAttempts > MAX_BOOT_ATTEMPTS_CEILING
              then outcome.DriverFailed? && outcome.fail.Unstartable? && log == [] && cell.body == old(cell.body)
              else Handshake(p, old(binding).None?, old(cell.body), maxAttempts, NO_ATTEMPT, log)
                   == Some((outcome, cell.body))
      ensures binding == if outcome.DriverReady? then Some(Binding(outcome.state.epoch, true)) else old(binding)
      ensures challenge == None || challenge == old(challenge)
      ensures Requests(t.log[|old(t.log)|..]) > 0 ==> challenge == None
    {
      hide Round, ValidBody, Handshake, Stands;
      if maxAttempts == 0 {
        return DriverFailed(Unstartable("max_attempts must be >= 1"));
      }
      if maxAttempts > MAX_BOOT_ATTEMPTS_CEILING {
        return DriverFailed(Unstartable("max_attempts exceeds MAX_BOOT_ATTEMPTS_CEILING"));
      }
      var lastTransport := NO_ATTEMPT;
      ghost var start, free, b := |t.log|, binding.None?, cell.body;
      StandsAtStart(p, free, b, maxAttempts);
      assert t.log[start..] == [];
      for i := 0 to maxAttempts
        invariant Valid() && ValidBody(cell.body) && old(t.log) <= t.log && binding == old(binding)
        invariant challenge == None || challenge == old(challenge)
        invariant Requests(t.log[start..]) > 0 ==> challenge == None
        invariant Stands(p, free, b, maxAttempts, t.log[start..], cell.body, maxAttempts - i, lastTransport)
      {
        ghost var before, log := cell.body, t.log;
        var step, note := Attempt(p, t, cell);
        ghost var seg := t.log[|log|..];
        assert t.log[start..] == log[start..] + seg;
        StandsAfterRound(p, free, b, maxAttempts, log[start..], before, maxAttempts - i, lastTransport, seg);
        RequestsAppend(log[start..], seg);
        if |seg| == 1 {
          OneDraw(p, free, before, seg);
        }
        if step.Some? {
          return step.value;
        }
        lastTransport := note;
      }
      StandsAtEnd(p, free, b, maxAttempts, t.log[start..], cell.body, lastTransport);
      outcome := DriverFailed(RetriesExhausted(lastTransport));
    }

    /** Fuse the outcome with the gate: only Ready serves, and in production only with a live binding. */
    method DecideServe(outcome: DriverOutcome, requireReal: bool) returns (r: Option<AnchorState>)
      ensures r == if outcome.DriverReady? && (requireReal ==> IsConfigured()) then Some(outcome.state) else None
    {
      match outcome {
        case DriverReady(state) =>
          if requireReal && !IsConfigured() {
            return None;
          }
          r := Some(state);
        case DriverFailed(_) =>
          r := None;
      }
    }

    /**
      Boot to serve: in production the process serves only after a run that began without a binding,
      installed it itself and left a body that is exactly the anchor's state.
     */
    method BootAndDecide(p: Primitives, t: Transport, cell: KeystoreCell, maxAttempts: nat)
        returns (r: Option<AnchorState>)
      requires Valid() && ValidBody(cell.body)
      modifies this, cell, t
      ensures Valid() && ValidBody(cell.body)
      ensures r.Some? ==> && old(binding).None? && Current(p, cell.body, r.value)
                          && binding == Some(Binding(r.value.epoch, true))
      ensures r.None? ==> binding == old(binding)
      ensures old(binding).Some? ==> r.None?
      ensures old(cell.body).freshnessEpoch <= cell.body.freshnessEpoch
    {
      hide Current, ValidBody, Handshake;
      ghost var start, free, b := |t.log|, binding.None?, cell.body;
      var outcome := RunBootHandshake(p, t, cell, maxAttempts);
      r := DecideServe(outcome, true);
      if 1 <= maxAttempts <= MAX_BOOT_ATTEMPTS_CEILING {
        ghost var log := t.log[start..];
        ghost var bodies := HandshakeAdopts(p, free, b, maxAttempts, NO_ATTEMPT, log);
        AdoptChainKeeps(bodies, Lane(b.config.anchorRoot, 0, []));
        if outcome.DriverReady? {
          ReadyIsCurrent(p, free, b, maxAttempts, NO_ATTEMPT, log);
        }
      }
    }
  }
}
