/**
  What the code's methods do is what the machine of `AntiRollback` does: a commit, a handler that
  succeeds and a whole boot handshake are runs of it, so all that holds of its runs holds of them.
 */
module Refinement {
  import opened Wrappers
  import opened Bytes
  import opened Cbor
  import opened Crypto
  import opened Anchor
  import opened AntiRollback
  import opened Backup
  import opened Boot
  import opened Capabilities
  import C = Commit
  import opened Keystore
  import opened Marks
  import O = Operations
  import opened Positional
  import Preimages
  import R = Restore
  import opened Sealing

  // ---------------------------------------------------------------- a commit

  /** The acknowledgement, if it decodes, was signed by the anchor. */
  ghost predicate SignedAck(w: World, ack: bytes) {
    var d := DecodedCommitAck(ack, MAX_REQUEST_ID_LEN);
    d.Some? && WasSigned(w, CommitAckPreimage(d.value))
  }

  /**
    The code's verdict on an answer is the machine's: what `CommitCandidate` accepts for a candidate is
    what a process accepts that waits for it, when the anchor key did sign it.
   */
  lemma {:induction false} CommitIsAck(p: Primitives, w: World, e: Entry, nonce: bytes32, claim: Option<Acceptance>,
      ack: bytes)
    requires w.pending == Some(Pending(e, nonce, claim)) && |e.requestId| <= MAX_REQUEST_ID_LEN
    ensures CanAck(p, w, ack) <==>
            C.Acknowledged(p, ack, O.CommitFor(p, e.body, e.requestId, nonce), e.body.config) && SignedAck(w, ack)
  {
    hide C.Acknowledged, CommitAckPreimage, WasSigned, LocalDigest, CommitAckVerdict;
    C.AcceptsOnlyTheEcho(p, ack, O.CommitFor(p, e.body, e.requestId, nonce), e.body.config);
    assert ProposalFor(p, w.pending.value) == O.CommitFor(p, e.body, e.requestId, nonce);
    var commit := ProposalFor(p, w.pending.value);
    if CommitAckVerdict(p, DecodedCommitAck(ack, MAX_REQUEST_ID_LEN), commit, e.body.config).Ok? {
      AcceptedDecodes(p, ack, commit, e.body.config);
    }
  }

  lemma {:induction false} AcceptedDecodes(p: Primitives, ack: bytes, commit: Proposal, config: KeystoreConfig)
    requires CommitAckVerdict(p, DecodedCommitAck(ack, MAX_REQUEST_ID_LEN), commit, config).Ok?
    ensures DecodedCommitAck(ack, MAX_REQUEST_ID_LEN).Some?
  {
    hide CommitAckPreimage;
  }

  /** A commit that succeeded was answered with the anchor's bytes for some signature of its own. */
  lemma {:induction false} CommittedSignature(p: Primitives, trip: C.RoundTrip, e: Entry, nonce: bytes32)
    returns (signature: bytes64)
    requires O.Committed(p, trip, e.body, e.requestId, nonce) && e.forged.None?
    ensures trip.answer == Ok(AckBytes(p, e, nonce, signature))
    ensures (p.verify)(e.body.config.anchorRoot, CommitAckPreimage(AckFor(p, e, nonce, signature)), signature)
  {
    hide Encode, CommitAckEntries, C.RequestBody, LocalDigest, C.RequestFrame, CommitAckPreimage, CommitAckDomain,
        ValidUtf8;
    var q := C.RequestFor(O.CommitFor(p, e.body, e.requestId, nonce), e.body.config);
    signature :|
      && trip.answer.value == Encode(MapV(CommitAckEntries(C.Echo(q, signature))))
      && (p.verify)(e.body.config.anchorRoot, CommitAckDomain() + C.RequestBody(q), signature);
    assert C.Echo(q, signature) == AckFor(p, e, nonce, signature);
    C.RequestIsAckPreimage(q, signature);
  }

  /**
    However long it takes: whatever host and anchor did while the process waited, the answer that the
    code accepts ends the operation, its candidate live and its claim accepted.
   */
  lemma {:induction false} AnswerEndsOperation(p: Primitives, ws: seq<World>, steps: seq<Step>, trip: C.RoundTrip,
      e: Entry, nonce: bytes32, claim: Option<Acceptance>) returns (vs: seq<World>)
    requires Run(p, ws, steps) && ws[|steps|].ledger != []
    requires ws[|steps|].pending == Some(Pending(e, nonce, claim))
    requires O.Committed(p, trip, e.body, e.requestId, nonce) && SignedAck(ws[|steps|], trip.answer.value)
    ensures Run(p, vs, steps + [AckReceived(trip.answer.value)])
    ensures var w, v := ws[|steps|], vs[|steps| + 1];
            && v.live == Some(e.body) && v.pending.None? && e.body in v.emitted && v.ledger == w.ledger
            && v.accepted == w.accepted + (if claim.Some? then [claim.value] else [])
  {
    var w, ack := ws[|steps|], trip.answer.value;
    hide Run, PendingSound, O.Committed, SignedAck;
    PendingRequest(p, ws, steps);
    AckAnswer(p, w, trip, e, nonce, claim);
    hide Enabled, After;
    RunSnoc(p, ws, steps, AckReceived(ack));
    vs := ws + [Acknowledged(w)];
  }

  lemma {:induction false} PendingRequest(p: Primitives, ws: seq<World>, steps: seq<Step>)
    requires Run(p, ws, steps) && ws[|steps|].pending.Some?
    ensures |ws[|steps|].pending.value.entry.requestId| <= MAX_REQUEST_ID_LEN && |ws| == |steps| + 1
  {
    hide ValidBody, Enabled, After, Initial;
    RunKeepsPending(p, ws, steps);
  }

  lemma {:induction false} AckAnswer(p: Primitives, w: World, trip: C.RoundTrip, e: Entry, nonce: bytes32,
      claim: Option<Acceptance>)
    requires w.pending == Some(Pending(e, nonce, claim)) && w.ledger != [] && |e.requestId| <= MAX_REQUEST_ID_LEN
    requires O.Committed(p, trip, e.body, e.requestId, nonce) && SignedAck(w, trip.answer.value)
    ensures Enabled(p, w, AckReceived(trip.answer.value))
    ensures After(p, w, AckReceived(trip.answer.value)) == Acknowledged(w)
  {
    hide CanAck, SignedAck, C.Acknowledged, O.CommitFrame, O.CommitFor;
    CommitIsAck(p, w, e, nonce, claim, trip.answer.value);
  }

  // ---------------------------------------------------------------- a handler that succeeds

  /** The world after the operation: the candidate live and emitted, its capability accepted once more. */
  predicate Done(w: World, v: World, after: KeystoreBody, a: Acceptance) {
    && v.live == Some(after) && v.pending.None? && after in v.emitted && v.accepted == w.accepted + [a]
    && w.ledger <= v.ledger <= w.ledger + [Entry(after, a.cap.requestId)]
  }

  /** The anchor can record it: a new request at the next epoch, or one that is on record already. */
  predicate Recordable(p: Primitives, w: World, e: Entry)
    requires w.ledger != []
  {
    Appends(w, e) || AlreadyRecorded(p, w, e)
  }

  /** A proposing step, and the answer to the handler's commit: three steps of the machine. */
  lemma {:induction false} CommittedIsARun(p: Primitives, ws: seq<World>, steps: seq<Step>, s: Step, e: Entry,
      nonce: bytes32, a: Acceptance, trip: C.RoundTrip)
    returns (vs: seq<World>, ts: seq<Step>, signature: bytes64)
    requires Run(p, ws, steps) && ws[|steps|].ledger != [] && Enabled(p, ws[|steps|], s)
    requires After(p, ws[|steps|], s) == Proposed(ws[|steps|], e, nonce, Some(a))
    requires Recordable(p, ws[|steps|], e) && e.forged.None? && a.cap.requestId == e.requestId
    requires O.Committed(p, trip, e.body, e.requestId, nonce)
    ensures Run(p, vs, ts) && Done(ws[|steps|], vs[|ts|], e.body, a)
    ensures trip.answer.Ok? && ts == steps + [s, RecordCommit(e, nonce, signature), AckReceived(trip.answer.value)]
  {
    var w := ws[|steps|];
    hide Run, Enabled, After, O.Committed, Appends, AlreadyRecorded, Completed, Proposed, Done, CommitAckPreimage,
        CommitSteps, AckBytes;
    signature := CommittedSignature(p, trip, e, nonce);
    vs, ts := ProposalCompletes(p, ws, steps, s, e, nonce, Some(a), signature);
    CompletedIsDone(p, w, e, nonce, a, signature);
    ThreeSteps(p, steps, s, e, nonce, signature);
  }

  lemma {:induction false} ThreeSteps(p: Primitives, steps: seq<Step>, s: Step, e: Entry, nonce: bytes32,
      signature: bytes64)
    ensures steps + [s] + CommitSteps(p, e, nonce, signature)
            == steps + [s, RecordCommit(e, nonce, signature), AckReceived(AckBytes(p, e, nonce, signature))]
  {
    hide AckBytes;
  }

  lemma {:induction false} CompletedIsDone(p: Primitives, w: World, e: Entry, nonce: bytes32, a: Acceptance,
      signature: bytes64)
    requires e.forged.None? && a.cap.requestId == e.requestId
    ensures Done(w, Completed(p, w, e, nonce, Some(a), signature), e.body, a)
  {
    hide AlreadyRecorded, AckStatement, MarksOf;
    assert e == Entry(e.body, a.cap.requestId);
    assert w.ledger <= w.ledger + [e];
  }

  function AcceptanceOf(cap: Capability, b: KeystoreBody, after: KeystoreBody): Acceptance {
    Acceptance(cap, CapLane(cap, b.config), after.freshnessEpoch)
  }

  /** A successful key generation is an operate step. */
  lemma {:induction false} KeygenIsAStep(p: Primitives, s: Sealer, w: World, q: O.AgentRequest, after: KeystoreBody,
      trip: C.RoundTrip, nonce: bytes32)
    requires w.ledger != [] && w.live.Some? && !NonceUsed(w, nonce)
    requires CarriesMarks(s) && O.KeygenDone(p, s, q, w.live.value, after, trip, nonce)
    ensures var c := O.ParsedCapability(q);
            && c.Some? && c.value.requestId == q.requestId
            && Enabled(p, w, Operate(c.value, OPCODE_GENERATE_KEYS, after, nonce))
            && After(p, w, Operate(c.value, OPCODE_GENERATE_KEYS, after, nonce))
               == Proposed(w, Entry(after, q.requestId), nonce, Some(AcceptanceOf(c.value, w.live.value, after)))
  {
    hide ValidBody, MarksFit, O.Authorised, O.KeygenAdmitted, CapVerdict, OperationCandidate, Sealed, LegalCapability,
        O.Committed, CarriesMarks, MarksOf, NonceUsed, O.ParsedCapability, CapLane;
    O.AdmittedIsAuthorised(p, q, w.live.value);
    O.VerdictFields(p, q, OPCODE_GENERATE_KEYS, w.live.value);
    SealedMarksFit(s, after);
  }

  /**
    A successful key generation extends every run it starts from, on its live body, by just its own three
    steps: it proposes, the anchor records, and the answer on the channel is accepted.
   */
  lemma {:induction false} KeygenIsARun(p: Primitives, s: Sealer, ws: seq<World>, steps: seq<Step>, q: O.AgentRequest,
      after: KeystoreBody, trip: C.RoundTrip, nonce: bytes32)
    returns (vs: seq<World>, ts: seq<Step>, signature: bytes64)
    requires Run(p, ws, steps) && ws[|steps|].ledger != [] && ws[|steps|].live.Some? && !NonceUsed(ws[|steps|], nonce)
    requires CarriesMarks(s) && O.KeygenDone(p, s, q, ws[|steps|].live.value, after, trip, nonce)
    requires Recordable(p, ws[|steps|], Entry(after, q.requestId))
    ensures Run(p, vs, ts) && O.ParsedCapability(q).Some? && trip.answer.Ok?
    ensures Done(ws[|steps|], vs[|ts|], after, AcceptanceOf(O.ParsedCapability(q).value, ws[|steps|].live.value, after))
    ensures ts == steps + [Operate(O.ParsedCapability(q).value, OPCODE_GENERATE_KEYS, after, nonce),
                           RecordCommit(Entry(after, q.requestId), nonce, signature), AckReceived(trip.answer.value)]
  {
    var w := ws[|steps|];
    KeygenCommitted(p, s, q, w.live.value, after, trip, nonce);
    hide Run, Enabled, After, O.Committed, Recordable, Proposed, Done, NonceUsed, O.KeygenDone, O.ParsedCapability,
        CapLane;
    KeygenIsAStep(p, s, w, q, after, trip, nonce);
    var c := O.ParsedCapability(q).value;
    vs, ts, signature := CommittedIsARun(p, ws, steps, Operate(c, OPCODE_GENERATE_KEYS, after, nonce),
                                         Entry(after, q.requestId), nonce, AcceptanceOf(c, w.live.value, after), trip);
  }

  lemma {:induction false} KeygenCommitted(p: Primitives, s: Sealer, q: O.AgentRequest, b: KeystoreBody,
      after: KeystoreBody, trip: C.RoundTrip, nonce: bytes32)
    requires O.KeygenDone(p, s, q, b, after, trip, nonce)
    ensures O.Committed(p, trip, after, q.requestId, nonce)
  {
    hide Sealed, O.KeygenAdmitted, OperationCandidate, O.Committed;
  }

  /** A successful restore is a restore step, of the payload that the envelope opens to and the signed marks. */
  lemma {:induction false} RestoreIsAStep(p: Primitives, s: Sealer, w: World, t: O.RestoreTools, q: O.AgentRequest,
      r: O.RestoreRequest, measurement: bytes, dk: bytes, after: KeystoreBody, trip: C.RoundTrip, nonce: bytes32)
    requires w.ledger != [] && w.live.Some? && !NonceUsed(w, nonce)
    requires CarriesMarks(s) && O.RestoreDone(p, s, t, q, r, measurement, dk, w.live.value, after, trip, nonce)
    ensures var v := O.Authorised(p, q, OPCODE_RESTORE_BACKUP, w.live.value).value;
            var inputs := O.RestoreInputs(p, t, r, v, q.requestId, w.live.value, measurement, dk);
            var c := O.ParsedCapability(q);
            && c.Some? && inputs.Some? && c.value.requestId == q.requestId
            && Enabled(p, w, RestoreFrom(c.value, inputs.value.0, inputs.value.1, nonce))
            && After(p, w, RestoreFrom(c.value, inputs.value.0, inputs.value.1, nonce))
               == Proposed(w, Entry(after, q.requestId), nonce, Some(AcceptanceOf(c.value, w.live.value, after)))
  {
    hide ValidBody, MarksFit, O.Authorised, CapVerdict, Sealed, LegalCapability, R.RestoreCandidate, OpenedIngress,
        ParsedPayload, O.RestoreBound, DecodedMarksPayload, O.ParsedCapability, O.Committed, CarriesMarks, MarksOf,
        NonceUsed, CapLane;
    O.VerdictFields(p, q, OPCODE_RESTORE_BACKUP, w.live.value);
    SealedMarksFit(s, after);
  }

  /** A successful restore extends every run it starts from by just its own three steps. */
  lemma {:induction false} RestoreIsARun(p: Primitives, s: Sealer, ws: seq<World>, steps: seq<Step>, t: O.RestoreTools,
      q: O.AgentRequest, r: O.RestoreRequest, measurement: bytes, dk: bytes, after: KeystoreBody, trip: C.RoundTrip,
      nonce: bytes32)
    returns (vs: seq<World>, ts: seq<Step>, data: R.RestoreIngressData, high: DecodedMarks, signature: bytes64)
    requires Run(p, ws, steps) && ws[|steps|].ledger != [] && ws[|steps|].live.Some? && !NonceUsed(ws[|steps|], nonce)
    requires CarriesMarks(s)
    requires O.RestoreDone(p, s, t, q, r, measurement, dk, ws[|steps|].live.value, after, trip, nonce)
    requires Recordable(p, ws[|steps|], Entry(after, q.requestId))
    ensures Run(p, vs, ts) && O.ParsedCapability(q).Some? && trip.answer.Ok?
    ensures var v := O.Authorised(p, q, OPCODE_RESTORE_BACKUP, ws[|steps|].live.value).value;
            O.RestoreInputs(p, t, r, v, q.requestId, ws[|steps|].live.value, measurement, dk) == Some((data, high))
    ensures Done(ws[|steps|], vs[|ts|], after, AcceptanceOf(O.ParsedCapability(q).value, ws[|steps|].live.value, after))
    ensures ts == steps + [RestoreFrom(O.ParsedCapability(q).value, data, high, nonce),
                           RecordCommit(Entry(after, q.requestId), nonce, signature), AckReceived(trip.answer.value)]
  {
    var w := ws[|steps|];
    RestoreCommitted(p, s, t, q, r, measurement, dk, w.live.value, after, trip, nonce);
    hide Run, Enabled, After, O.Committed, Recordable, Proposed, Done, NonceUsed, O.RestoreDone, O.ParsedCapability,
        CapLane, O.RestoreInputs, O.Authorised;
    RestoreIsAStep(p, s, w, t, q, r, measurement, dk, after, trip, nonce);
    var c := O.ParsedCapability(q).value;
    var v := O.Authorised(p, q, OPCODE_RESTORE_BACKUP, w.live.value).value;
    var inputs := O.RestoreInputs(p, t, r, v, q.requestId, w.live.value, measurement, dk).value;
    data, high := inputs.0, inputs.1;
    vs, ts, signature := CommittedIsARun(p, ws, steps, RestoreFrom(c, data, high, nonce),
                                         Entry(after, q.requestId), nonce, AcceptanceOf(c, w.live.value, after), trip);
  }

  lemma {:induction false} RestoreCommitted(p: Primitives, s: Sealer, t: O.RestoreTools, q: O.AgentRequest,
      r: O.RestoreRequest, measurement: bytes, dk: bytes, b: KeystoreBody, after: KeystoreBody, trip: C.RoundTrip,
      nonce: bytes32)
    requires O.RestoreDone(p, s, t, q, r, measurement, dk, b, after, trip, nonce)
    ensures O.Committed(p, trip, after, q.requestId, nonce) && O.Authorised(p, q, OPCODE_RESTORE_BACKUP, b).Ok?
  {
    hide Sealed, O.RestoreTarget, O.Committed, O.Authorised;
  }

  // ---------------------------------------------------------------- a boot handshake

  /** The freshness reply, if it decodes, was signed by the anchor. */
  ghost predicate SignedReply(w: World, response: bytes) {
    DecodedResponse(response).Some? && WasSigned(w, AnchorPreimage(DecodedResponse(response).value))
  }

  /** What the code says of a reply in the world's ceremony. */
  ghost function VerdictIn(p: Primitives, w: World, response: bytes): BootOutcome
    requires Challenging(w)
  {
    var b := w.booting.value.body;
    ReconcileVerdict(p, Some(ChallengeFor(b.config, w.booting.value.nonce.value)), true, response, b)
  }

  /**
    The code's reconcile is the machine's: Ready exactly where the machine gets ready, and AdoptForward
    with an accepted marks reply exactly where it adopts, and the same body.
   */
  lemma {:induction false} ReconcileIsAStep(p: Primitives, w: World, response: bytes, reply: bytes)
    requires Challenging(w)
    ensures CanReady(p, w, response) <==> VerdictIn(p, w, response).Ready? && SignedReply(w, response)
    ensures var v := VerdictIn(p, w, response);
            var adopt := if v.AdoptForwardRequired? then AdoptVerdict(p, reply, w.booting.value.body, v.state, v.nonce)
                         else Err(MarksDecode);
            && (CanAdopt(p, w, response, reply) <==> adopt.Ok? && SignedReply(w, response))
            && (CanAdopt(p, w, response, reply) ==> AdoptedBody(p, w, response, reply) == adopt)
  {
    hide DecodedResponse, AnchorPreimage, WasSigned, AdoptVerdict, LocalDecision, AnchorVerdict;
    if DecodedResponse(response).None? {
      UndecodedFails(p, w.booting.value.nonce.value, w.booting.value.body.config);
    }
  }

  lemma {:induction false} UndecodedFails(p: Primitives, nonce: bytes32, config: KeystoreConfig)
    ensures AnchorVerdict(p, None, nonce, config).Err?
  {
  }

  /** The process's own doings so far; the ledger and the signed statements may grow meanwhile. */
  predicate Quiet(w: World, v: World) {
    v.accepted == w.accepted && v.emitted == w.emitted && v.proposals == w.proposals && w.ledger <= v.ledger
  }

  /** The process is live on `b`, or it is still booting it. */
  predicate Reaches(v: World, ready: bool, b: KeystoreBody) {
    if ready then v.live == Some(b) && v.booting.None? && v.pending.None?
    else v.live.None? && v.booting.Some? && v.booting.value.body == b
  }

  function BodyAfter(result: RoundResult, b: KeystoreBody): KeystoreBody {
    if result.Again? then result.body else b
  }

  predicate EndsReady(result: RoundResult) {
    result.Stop? && result.outcome.DriverReady?
  }

  /** Any number of enabled steps, from any world. */
  ghost predicate Steps(p: Primitives, ws: seq<World>, steps: seq<Step>) {
    && |ws| == |steps| + 1
    && forall i | 0 <= i < |steps| ::
         ws[i].ledger != [] && Enabled(p, ws[i], steps[i]) && ws[i + 1] == After(p, ws[i], steps[i])
  }

  lemma {:induction false} OneStep(p: Primitives, w: World, s: Step)
    requires w.ledger != [] && Enabled(p, w, s)
    ensures Steps(p, [w, After(p, w, s)], [s])
  {
    hide Enabled, After;
  }

  lemma {:induction false} StepsThenSteps(p: Primitives, us: seq<World>, ss: seq<Step>, vs: seq<World>, ts: seq<Step>)
    requires Steps(p, us, ss) && Steps(p, vs, ts) && vs[0] == us[|ss|]
    ensures Steps(p, us + vs[1..], ss + ts) && us != [] && (us + vs[1..])[0] == us[0]
    ensures (us + vs[1..])[|ss + ts|] == vs[|ts|]
  {
    hide Enabled, After;
    var ws, rs := us + vs[1..], ss + ts;
    forall i | 0 <= i < |rs|
      ensures ws[i].ledger != [] && Enabled(p, ws[i], rs[i]) && ws[i + 1] == After(p, ws[i], rs[i])
    {
      if i < |ss| {
        assert ws[i] == us[i] && ws[i + 1] == us[i + 1] && rs[i] == ss[i];
      } else {
        var k := i - |ss|;
        assert ws[i] == vs[k] && ws[i + 1] == vs[k + 1] && rs[i] == ts[k];
      }
    }
  }

  lemma {:induction false} RunThenSteps(p: Primitives, us: seq<World>, ss: seq<Step>, vs: seq<World>, ts: seq<Step>)
    requires Run(p, us, ss) && Steps(p, vs, ts) && vs[0] == us[|ss|]
    ensures Run(p, us + vs[1..], ss + ts) && (us + vs[1..])[|ss + ts|] == vs[|ts|]
  {
    hide Enabled, After, Initial;
    StepsThenSteps(p, us, ss, vs, ts);
  }

  /** What the host, the network and the anchor do without the enclave. */
  predicate Outside(s: Step) {
    s.SignFreshness? || s.SignMarks? || s.SignElsewhere? || s.RecordCommit? || s.RecordForged?
  }

  /** Any number of steps around a waiting process. */
  datatype Stretch = Stretch(worlds: seq<World>, steps: seq<Step>) {
    ghost predicate Valid(p: Primitives) {
      Steps(p, worlds, steps) && forall i | 0 <= i < |steps| :: Outside(steps[i])
    }

    function End(): World
      requires |worlds| == |steps| + 1
    {
      worlds[|steps|]
    }
  }

  /** A waiting process stays as it is. */
  predicate Waits(w: World, v: World) {
    Quiet(w, v) && v.live == w.live && v.booting == w.booting && v.pending == w.pending
  }

  lemma {:induction false} OutsideWaits(p: Primitives, w: World, s: Step)
    requires w.ledger != [] && Enabled(p, w, s) && Outside(s)
    ensures Waits(w, After(p, w, s))
  {
    hide CanRecord, CanForge, Describes, AckStatement, AlreadyRecorded, Concerns, ForgedEntry;
  }

  lemma {:induction false} StretchWaits(p: Primitives, ws: seq<World>, steps: seq<Step>)
    requires Stretch(ws, steps).Valid(p)
    ensures |ws| == |steps| + 1 && Waits(ws[0], ws[|steps|])
    decreases |steps|
  {
    hide Enabled, After, Outside;
    if steps != [] {
      var n := |steps| - 1;
      StretchWaits(p, ws[..n + 1], steps[..n]);
      OutsideWaits(p, ws[n], steps[n]);
    }
  }

  /** The step that a round ends with, once its reply is there. */
  ghost function Verdict(p: Primitives, b: KeystoreBody, log: seq<Exchange>): Step
    requires Round(p, true, b, log).Some?
  {
    var result := Round(p, true, b, log).value.0;
    if |log| < 2 || !Verified(p, b.config, log[1]) then BootDrop
    else if EndsReady(result) then BootReady(log[1].reply.value)
    else if result.Again? && |log| > 2 && log[2].AskedMarks? && log[2].marks.Ok?
    then BootAdopt(log[1].reply.value, log[2].marks.value)
    else BootDrop
  }

  lemma {:induction false} RoundBegins(p: Primitives, b: KeystoreBody, log: seq<Exchange>)
    requires Round(p, true, b, log).Some?
    ensures log != [] && log[0].Drawn?
    ensures log[0].nonce.Some? ==>
              |log| > 1 && log[1].Asked? && log[1].q == BootRequestFor(p, b.config, log[0].nonce.value)
  {
    hide ReconcileVerdict, AdoptVerdict, BootRequestFor;
  }

  /** A round without a verified reply goes nowhere. */
  lemma {:induction false} UnverifiedGoesNowhere(p: Primitives, b: KeystoreBody, log: seq<Exchange>)
    requires Round(p, true, b, log).Some? && log != [] && log[0].Drawn?
    requires log[0].nonce.Some? ==> |log| > 1 && !Verified(p, b.config, log[1])
    ensures var result := Round(p, true, b, log).value.0;
            !EndsReady(result) && BodyAfter(result, b) == b
  {
    hide DecodedResponse, AnchorVerdict, AdoptVerdict, LocalDecision;
  }

  lemma {:induction false} VerdictIsEnabled(p: Primitives, w: World, b: KeystoreBody, log: seq<Exchange>)
    requires w.ledger != [] && Challenging(w) && w.booting.value.body == b && w.live.None?
    requires Round(p, true, b, log).Some? && |log| > 1 && log[0] == Drawn(w.booting.value.nonce)
    requires Verified(p, b.config, log[1]) ==> SignedReply(w, log[1].reply.value)
    ensures Enabled(p, w, Verdict(p, b, log))
    ensures var v, result := After(p, w, Verdict(p, b, log)), Round(p, true, b, log).value.0;
            Quiet(w, v) && Reaches(v, EndsReady(result), BodyAfter(result, b))
  {
    if Verified(p, b.config, log[1]) {
      VerifiedIsEnabled(p, w, b, log);
    } else {
      hide Round, Verified, SignedReply;
      UnverifiedGoesNowhere(p, b, log);
    }
  }

  lemma {:induction false} VerifiedIsEnabled(p: Primitives, w: World, b: KeystoreBody, log: seq<Exchange>)
    requires w.ledger != [] && Challenging(w) && w.booting.value.body == b && w.live.None?
    requires Round(p, true, b, log).Some? && |log| > 1 && log[0] == Drawn(w.booting.value.nonce)
    requires Verified(p, b.config, log[1]) && SignedReply(w, log[1].reply.value)
    ensures Enabled(p, w, Verdict(p, b, log))
    ensures var v, result := After(p, w, Verdict(p, b, log)), Round(p, true, b, log).value.0;
            Quiet(w, v) && Reaches(v, EndsReady(result), BodyAfter(result, b))
  {
    hide DecodedResponse, AdoptVerdict, ReconcileVerdict, CanReady, CanAdopt, AdoptedBody, SignedReply, MarksOf,
        AnchorVerdict;
    var response := log[1].reply.value;
    var marks := if |log| > 2 && log[2].AskedMarks? && log[2].marks.Ok? then log[2].marks.value else [];
    ReconcileIsAStep(p, w, response, marks);
    assert VerdictIn(p, w, response)
           == ReconcileVerdict(p, Some(ChallengeFor(b.config, log[0].nonce.value)), true, response, b);
  }

  /**
    `moves` is all that happens around a process that boots `b`, one stretch for each reply it waits for:
    the nonces it draws are new, and a freshness reply that verifies is one that the anchor has signed by then.
   */
  ghost predicate Around(p: Primitives, w: World, b: KeystoreBody, left: nat, log: seq<Exchange>, moves: seq<Stretch>)
    decreases left
  {
    left > 0 && Round(p, true, b, log).Some? && log[0].nonce.Some? ==>
      && moves != [] && !NonceUsed(w, log[0].nonce.value) && moves[0].Valid(p)
      && moves[0].worlds[0] == BootingWith(w, b, log[0].nonce)
      && (Verified(p, b.config, log[1]) ==> SignedReply(moves[0].End(), log[1].reply.value))
      && var (result, n) := Round(p, true, b, log).value;
         result.Again? && n <= |log| ==>
           Around(p, Next(p, moves[0].End(), b, log), result.body, left - 1, log[n..], moves[1..])
  }

  /** The world after a round whose reply arrives in `w`. */
  ghost function Next(p: Primitives, w: World, b: KeystoreBody, log: seq<Exchange>): World
    requires Round(p, true, b, log).Some?
  {
    if w.ledger != [] && Enabled(p, w, Verdict(p, b, log)) then After(p, w, Verdict(p, b, log)) else w
  }

  /** One round of the handshake: the draw, what goes on until the reply is there, and ready, adopt or drop. */
  lemma {:induction false} RoundIsSteps(p: Primitives, w: World, b: KeystoreBody, log: seq<Exchange>, m: Stretch)
    returns (ws: seq<World>, steps: seq<Step>)
    requires w.ledger != [] && w.live.None? && w.booting.Some? && w.booting.value.body == b
    requires Round(p, true, b, log).Some? && log[0].nonce.Some? && !NonceUsed(w, log[0].nonce.value)
    requires m.Valid(p) && m.worlds[0] == BootingWith(w, b, log[0].nonce) && |log| > 1
    requires Verified(p, b.config, log[1]) ==> SignedReply(m.End(), log[1].reply.value)
    ensures |m.worlds| == |m.steps| + 1
    ensures Steps(p, ws, steps) && ws != [] && ws[0] == w && ws[|steps|] == Next(p, m.End(), b, log)
    ensures steps == [BootDraw(log[0].nonce.value)] + m.steps + [Verdict(p, b, log)]
    ensures var result := Round(p, true, b, log).value.0;
            Quiet(w, ws[|steps|]) && Reaches(ws[|steps|], EndsReady(result), BodyAfter(result, b))
  {
    RoundBegins(p, b, log);
    var nonce := log[0].nonce.value;
    var w1 := BootingWith(w, b, Some(nonce));
    hide Round, Verified, SignedReply, Steps;
    StretchWaits(p, m.worlds, m.steps);
    var w2 := m.End();
    OneStep(p, w, BootDraw(nonce));
    hide Enabled, After, Verdict, NonceUsed;
    VerdictIsEnabled(p, w2, b, log);
    OneStep(p, w2, Verdict(p, b, log));
    StepsThenSteps(p, [w, w1], [BootDraw(nonce)], m.worlds, m.steps);
    ws, steps := [w, w1] + m.worlds[1..], [BootDraw(nonce)] + m.steps;
    StepsThenSteps(p, ws, steps, [w2, Next(p, w2, b, log)], [Verdict(p, b, log)]);
    ws, steps := ws + [w2, Next(p, w2, b, log)][1..], steps + [Verdict(p, b, log)];
  }

  /** A whole handshake is a stretch of the machine: Ready with the body it is live on, or still booting. */
  lemma {:induction false} HandshakeIsSteps(p: Primitives, w: World, b: KeystoreBody, left: nat, last: string,
      log: seq<Exchange>, moves: seq<Stretch>)
    returns (ws: seq<World>, steps: seq<Step>)
    requires w.ledger != [] && w.live.None? && w.booting.Some? && w.booting.value.body == b
    requires Handshake(p, true, b, left, last, log).Some? && Around(p, w, b, left, log, moves)
    ensures Steps(p, ws, steps) && ws != [] && ws[0] == w
    ensures var (outcome, c) := Handshake(p, true, b, left, last, log).value;
            Quiet(w, ws[|steps|]) && Reaches(ws[|steps|], outcome.DriverReady?, c)
    decreases left
  {
    hide Round, Steps, Verified, SignedReply, Next;
    ws, steps := [w], [];
    NoSteps(p, w);
    if left > 0 {
      RoundBegins(p, b, log);
      if log[0].nonce.None? {
        UnverifiedGoesNowhere(p, b, log);
        DrawFailed(p, b, log);
      } else {
        ws, steps := RoundIsSteps(p, w, b, log, moves[0]);
        var (result, n) := Round(p, true, b, log).value;
        if result.Again? {
          var v := Next(p, moves[0].End(), b, log);
          var vs, ts := HandshakeIsSteps(p, v, result.body, left - 1, result.note, log[n..], moves[1..]);
          StepsThenSteps(p, ws, steps, vs, ts);
          ws, steps := ws + vs[1..], steps + ts;
        }
      }
    }
  }

  lemma {:induction false} DrawFailed(p: Primitives, b: KeystoreBody, log: seq<Exchange>)
    requires Round(p, true, b, log).Some? && log[0].nonce.None?
    ensures Round(p, true, b, log).value.0.Stop?
  {
    hide ReconcileVerdict, AdoptVerdict;
  }

  lemma {:induction false} NoSteps(p: Primitives, w: World)
    ensures Steps(p, [w], [])
  {
  }

  /**
    A boot handshake extends every run: whatever emitted body the host hands over, whatever came back for
    each request and whatever happened around it, the process ends live on the body the code ends with if
    it is Ready, and not live otherwise; and it proposes, accepts and emits nothing on the way.
   */
  lemma {:induction false} HandshakeIsARun(p: Primitives, us: seq<World>, ss: seq<Step>, b: KeystoreBody, max: nat,
      log: seq<Exchange>, moves: seq<Stretch>)
    returns (ws: seq<World>, steps: seq<Step>)
    requires Run(p, us, ss) && us[|ss|].ledger != [] && b in us[|ss|].emitted
    requires Handshake(p, true, b, max, NO_ATTEMPT, log).Some?
    requires Around(p, BootingWith(us[|ss|], b, None), b, max, log, moves)
    ensures Run(p, ws, steps) && ss < steps && steps[|ss|] == BootStart(b)
    ensures var (outcome, c) := Handshake(p, true, b, max, NO_ATTEMPT, log).value;
            Quiet(us[|ss|], ws[|steps|]) && Reaches(ws[|steps|], outcome.DriverReady?, c)
  {
    hide Handshake, Around, Initial, Reaches;
    var w := us[|ss|];
    var v := BootingWith(w, b, None);
    RunSnoc(p, us, ss, BootStart(b));
    assert After(p, w, BootStart(b)) == v;
    hide Run, Enabled, After;
    var vs, ts := HandshakeIsSteps(p, v, b, max, NO_ATTEMPT, log, moves);
    RunThenSteps(p, us + [v], ss + [BootStart(b)], vs, ts);
    ws, steps := us + [v] + vs[1..], ss + [BootStart(b)] + ts;
  }
}
