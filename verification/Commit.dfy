/**
  The per-operation commit: the request the enclave sends, the acknowledgement it demands back, and
  the fact that the two carry one and the same message body.
 */
module Commit {
  import opened Wrappers
  import opened Bytes
  import opened Cbor
  import opened Crypto
  import opened Anchor
  import opened Emit
  import F = Framing
  import opened Keystore
  import opened MapAccess
  import opened Positional

  const COMMIT_REQUEST_VERSION: u64 := 1

  datatype CommitRequest = CommitRequest(chainId: u64, environmentIdentifier: bytes, proposal: Proposal)

  datatype CommitFailure = EncodeFailed | TransportFailed(e: string) | AckRejected(cause: CommitAckError)

  /** The acknowledgement that echoes a request, with some signature. */
  function Echo(q: CommitRequest, signature: bytes64): CommitAckFields {
    CommitAckFields(COMMIT_ACK_VERSION, q.chainId, q.environmentIdentifier,
                    q.proposal.epoch, q.proposal.structuralVersion,
                    q.proposal.marksDigest, q.proposal.nonce, q.proposal.requestId, signature)
  }

  /** The request body as a value. */
  function RequestEntries(q: CommitRequest): entries {
    [(Int(1), Int(COMMIT_REQUEST_VERSION)), (Int(2), Int(q.chainId)), (Int(3), Text(q.environmentIdentifier)),
     (Int(4), Int(q.proposal.epoch)), (Int(5), Int(q.proposal.structuralVersion)),
     (Int(6), Bstr(q.proposal.marksDigest)),
     (Int(7), Bstr(q.proposal.nonce)), (Int(8), Bstr(q.proposal.requestId))]
  }

  function RequestBody(q: CommitRequest): bytes {
    Encode(MapV(RequestEntries(q)))
  }

  /** The request on the wire. */
  function RequestFrame(q: CommitRequest): bytes {
    F.Frame(F.FramedMessage(F.AgentAnchorCommitRelay, RequestBody(q)))
  }

  predicate Sendable(q: CommitRequest) {
    |q.proposal.requestId| <= MAX_REQUEST_ID_LEN && F.Fits(RequestBody(q))
  }

  method EncodeAnchorCommitRequest(q: CommitRequest) returns (r: Option<bytes>)
    requires |q.environmentIdentifier| <= U64_MAX
    ensures r == if Sendable(q) then Some(RequestFrame(q)) else None
  {
    hide Head, Encode, EncodeEntries, F.Frame;
    if |q.proposal.requestId| > MAX_REQUEST_ID_LEN {
      return None;
    }
    var out := PutMapHeader([], 8);
    ghost var base, d := out, [];
    out, d := PutUintEntry(out, base, d, 1, COMMIT_REQUEST_VERSION);
    out, d := PutUintEntry(out, base, d, 2, q.chainId);
    out, d := PutTextEntry(out, base, d, 3, q.environmentIdentifier);
    out, d := PutUintEntry(out, base, d, 4, q.proposal.epoch);
    out, d := PutUintEntry(out, base, d, 5, q.proposal.structuralVersion);
    out, d := PutBytesEntry(out, base, d, 6, q.proposal.marksDigest);
    out, d := PutBytesEntry(out, base, d, 7, q.proposal.nonce);
    out, d := PutBytesEntry(out, base, d, 8, q.proposal.requestId);
    assert d == RequestEntries(q);
    EncodeMap([], d);
    assert [] + Encode(MapV(d)) == Encode(MapV(d));
    var frame := F.EncodeMessage(F.AgentAnchorCommitRelay, out);
    r := if frame.Ok? then Some(frame.value) else None;
  }

  /** Under a sealed environment the request id is all that can keep a request from being sent. */
  lemma {:induction false} SealedRequestFits(q: CommitRequest)
    requires |q.environmentIdentifier| <= 64
    ensures Sendable(q) <==> |q.proposal.requestId| <= MAX_REQUEST_ID_LEN
  {
    if |q.proposal.requestId| <= MAX_REQUEST_ID_LEN {
      hide Head, RequestEntries;
      var es := RequestEntries(q);
      RequestValuesAreShort(q);
      ShortEntries(es, 83);
    }
  }

  lemma {:induction false} RequestValuesAreShort(q: CommitRequest)
    requires |q.environmentIdentifier| <= 64 && |q.proposal.requestId| <= MAX_REQUEST_ID_LEN
    ensures var es := RequestEntries(q);
            |es| == 8 && forall i | 0 <= i < |es| :: |Encode(es[i].0)| + |Encode(es[i].1)| <= 83
  {
    hide Head;
  }

  lemma {:induction false} ShortEntries(es: entries, n: nat)
    requires forall i | 0 <= i < |es| :: |Encode(es[i].0)| + |Encode(es[i].1)| <= n
    ensures |EncodeEntries(es)| <= n * |es|
  {
    hide Encode;
    if es != [] {
      ShortEntries(es[1..], n);
    }
  }

  /** Commit agreement: what the anchor signs is its domain followed by exactly the request body. */
  lemma {:induction false} RequestIsAckPreimage(q: CommitRequest, signature: bytes64)
    ensures CommitAckPreimage(Echo(q, signature)) == CommitAckDomain() + RequestBody(q)
  {
    hide Encode;
    assert CommitAckSigned(Echo(q, signature)) == RequestEntries(q);
  }

  /** ... and that of no other request: the body in the preimage tells who asked for what. */
  lemma {:induction false} RequestBodyBinds(q: CommitRequest, f: CommitAckFields)
    requires |q.environmentIdentifier| <= U64_MAX && |q.proposal.requestId| <= U64_MAX
    requires |f.environmentIdentifier| <= U64_MAX && |f.requestId| <= U64_MAX
    ensures CommitAckPreimage(f) == CommitAckDomain() + RequestBody(q) <==> f == Echo(q, f.signature)
  {
    hide RequestBody, CommitAckPreimage;
    RequestIsAckPreimage(q, f.signature);
    if CommitAckPreimage(f) == CommitAckDomain() + RequestBody(q) {
      CommitAckPreimageInjective(f, Echo(q, f.signature));
    }
  }

  function RequestFor(commit: Proposal, config: KeystoreConfig): CommitRequest {
    CommitRequest(config.twodChainId, config.environmentIdentifier, commit)
  }

  /** The anchor acknowledged `commit` under `config`'s scope with these bytes. */
  ghost predicate Acknowledged(p: Primitives, ack: bytes, commit: Proposal, config: KeystoreConfig) {
    && |config.environmentIdentifier| <= MAX_STR_LEN && ValidUtf8(config.environmentIdentifier)
    && exists signature: bytes64 ::
      && ack == Encode(MapV(CommitAckEntries(Echo(RequestFor(commit, config), signature))))
      && (p.verify)(config.anchorRoot, CommitAckDomain() + RequestBody(RequestFor(commit, config)), signature)
  }

  /** The verifier accepts exactly the canonical, signed echo of the proposal. */
  lemma {:induction false} AcceptsOnlyTheEcho(p: Primitives, ack: bytes, commit: Proposal, config: KeystoreConfig)
    requires |commit.requestId| <= MAX_REQUEST_ID_LEN
    ensures CommitAckVerdict(p, DecodedCommitAck(ack, MAX_REQUEST_ID_LEN), commit, config).Ok?
            <==> Acknowledged(p, ack, commit, config)
  {
    hide Encode, ValidUtf8, CommitAckEntries, CommitAckPreimage, RequestBody;
    var q := RequestFor(commit, config);
    var d := DecodedCommitAck(ack, MAX_REQUEST_ID_LEN);
    if CommitAckVerdict(p, d, commit, config).Ok? {
      assert CommitAckBytes(ack, d.value, MAX_REQUEST_ID_LEN);
      assert d.value == Echo(q, d.value.signature);
      RequestIsAckPreimage(q, d.value.signature);
    }
    if Acknowledged(p, ack, commit, config) {
      var signature: bytes64 :|
        && ack == Encode(MapV(CommitAckEntries(Echo(q, signature))))
        && (p.verify)(config.anchorRoot, CommitAckDomain() + RequestBody(q), signature);
      assert CommitAckBytes(ack, Echo(q, signature), MAX_REQUEST_ID_LEN);
      RequestIsAckPreimage(q, signature);
    }
  }

  /** A request that went out on the channel and what came back. */
  datatype RoundTrip = RoundTrip(frame: bytes, answer: Result<bytes, string>)

  /** The commit channel to the anchor, through a hostile host: any answer at all, and a log of the traffic. */
  class CommitChannel {
    ghost var log: seq<RoundTrip>

    constructor ()
      ensures log == []
    {
      log := [];
    }

    method Send(frame: bytes) returns (answer: Result<bytes, string>)
      modifies this
      ensures log == old(log) + [RoundTrip(frame, answer)]
    {
      answer := *;
      log := log + [RoundTrip(frame, answer)];
    }
  }

  /** What an answer to the request means for the operation. */
  ghost function CommitVerdict(p: Primitives, answer: Result<bytes, string>, commit: Proposal, config: KeystoreConfig)
    : Result<(), CommitFailure>
  {
    match answer
    case Err(e) => Err(TransportFailed(e))
    case Ok(ack) =>
      match CommitAckVerdict(p, DecodedCommitAck(ack, MAX_REQUEST_ID_LEN), commit, config)
      case Err(e) => Err(AckRejected(e))
      case Ok(()) => Ok(())
  }

  /**
    `run_anchor_commit`: a request that fits is sent exactly once and judged by its answer alone; one
    that does not fit is not sent. Success is the anchor's signed record of exactly the proposed epoch,
    structural version, digest, nonce and request id under the sealed scope.
   */
  method RunAnchorCommit(p: Primitives, channel: CommitChannel, commit: Proposal, config: KeystoreConfig)
    returns (r: Result<(), CommitFailure>)
    requires |config.environmentIdentifier| <= U64_MAX
    modifies channel
    ensures var q := RequestFor(commit, config);
            if !Sendable(q) then r == Err(EncodeFailed) && channel.log == old(channel.log)
            else && |channel.log| == |old(channel.log)| + 1 && old(channel.log) <= channel.log
                 && var trip := channel.log[|old(channel.log)|];
                    && trip.frame == RequestFrame(q) && r == CommitVerdict(p, trip.answer, commit, config)
                    && (r.Ok? <==> trip.answer.Ok? && Acknowledged(p, trip.answer.value, commit, config))
  {
    hide RequestBody, RequestFrame, ValidUtf8, Acknowledged, DecodedCommitAck, CommitAckPreimage, CommitAckVerdict;
    var frame := EncodeAnchorCommitRequest(RequestFor(commit, config));
    if frame.None? {
      return Err(EncodeFailed);
    }
    var answer := channel.Send(frame.value);
    if answer.Err? {
      return Err(TransportFailed(answer.error));
    }
    AcceptsOnlyTheEcho(p, answer.value, commit, config);
    var v := VerifyCommitAckBytes(p, answer.value, commit, config);
    r := if v.Ok? then Ok(()) else Err(AckRejected(v.error));
  }
}
