/**
  All five signed messages side by side: no preimage of one protocol leg is a preimage of another,
  and within a leg the preimage determines the signed fields.
 */
module Preimages {
  import opened Wrappers
  import opened Bytes
  import opened Cbor
  import opened Anchor
  import opened Capabilities
  import opened Positional
  import Restore

  /** A message that some authority signs. */
  datatype Statement =
    | Freshness(r: AnchorResponse)
    | MarksReply(m: MarksRespFields)
    | CommitAck(a: CommitAckFields)
    | Authorisation(c: Capability)
    | HighWater(chainId: u64, env: bytes, requestId: bytes, marks: bytes)

  function Domain(s: Statement): bytes {
    match s
    case Freshness(_) => AnchorDomain()
    case MarksReply(_) => MarksRespDomain()
    case CommitAck(_) => CommitAckDomain()
    case Authorisation(_) => CapDomain()
    case HighWater(_, _, _, _) => Restore.RecoveryHighWaterDomain()
  }

  function Preimage(s: Statement): bytes {
    match s
    case Freshness(r) => AnchorPreimage(r)
    case MarksReply(m) => MarksRespPreimage(m)
    case CommitAck(a) => CommitAckPreimage(a)
    case Authorisation(c) => CapPreimage(c)
    case HighWater(chainId, env, requestId, marks) => Restore.RecoveryPreimage(chainId, env, requestId, marks)
  }

  /** Byte 6, 13, 19 or 20 tells any two domains apart. */
  lemma {:induction false} DomainBytes()
    ensures |AnchorDomain()| > 20 && |MarksRespDomain()| > 20 && |CommitAckDomain()| > 20
    ensures |CapDomain()| > 13 && |Restore.RecoveryHighWaterDomain()| > 6
    ensures AnchorDomain()[19] == '/' as int && MarksRespDomain()[19] == CommitAckDomain()[19] == '-' as int
    ensures MarksRespDomain()[20] == 'm' as int && CommitAckDomain()[20] == 'c' as int
    ensures AnchorDomain()[13] == MarksRespDomain()[13] == CommitAckDomain()[13] == 'a' as int
        && CapDomain()[13] == 'c' as int
    ensures AnchorDomain()[6] == MarksRespDomain()[6] == CommitAckDomain()[6] == CapDomain()[6] == '/' as int
    ensures Restore.RecoveryHighWaterDomain()[6] == '-' as int
  {
  }

  /** A statement's preimage begins with its leg's domain. */
  lemma {:induction false} BeginsWithDomain(s: Statement, i: nat)
    requires i < |Domain(s)|
    ensures i < |Preimage(s)| && Preimage(s)[i] == Domain(s)[i]
  {
    hide Encode, BE, CapDomain, AnchorDomain, MarksRespDomain, CommitAckDomain, Restore.RecoveryHighWaterDomain;
  }

  /** Domain separation, for all field values: a signature on one leg never fits another. */
  lemma {:induction false} LegsDisjoint(s: Statement, t: Statement)
    requires Preimage(s) == Preimage(t)
    ensures Domain(s) == Domain(t)
    ensures s.Freshness? == t.Freshness? && s.MarksReply? == t.MarksReply? && s.CommitAck? == t.CommitAck?
    ensures s.Authorisation? == t.Authorisation? && s.HighWater? == t.HighWater?
  {
    hide Preimage, CapDomain, AnchorDomain, MarksRespDomain, CommitAckDomain, Restore.RecoveryHighWaterDomain;
    DomainBytes();
    BeginsWithDomain(s, 6);
    BeginsWithDomain(t, 6);
    if !s.HighWater? && !t.HighWater? {
      BeginsWithDomain(s, 13);
      BeginsWithDomain(t, 13);
      if !s.Authorisation? && !t.Authorisation? {
        BeginsWithDomain(s, 19);
        BeginsWithDomain(t, 19);
        BeginsWithDomain(s, 20);
        BeginsWithDomain(t, 20);
      }
    }
  }

  /** Lengths the encoders are meant for: 64-bit heads, and the recovery leg's 16-bit prefixes. */
  predicate Encodable(s: Statement) {
    match s
    case Freshness(r) => BothOrNeither(r) && |r.environmentIdentifier| <= U64_MAX
    case MarksReply(m) => |m.environmentIdentifier| <= U64_MAX && |m.marksPayload| <= U64_MAX
    case CommitAck(a) => |a.environmentIdentifier| <= U64_MAX && |a.requestId| <= U64_MAX
    case Authorisation(c) => CapStringsFit(c)
    case HighWater(_, env, requestId, _) => Restore.RecoveryFits(env, requestId)
  }

  /** The two statements agree on everything that is signed. */
  predicate SameSigned(s: Statement, t: Statement) {
    match (s, t)
    case (Freshness(r), Freshness(q)) => r.(signature := q.signature) == q
    case (MarksReply(m), MarksReply(n)) => m.(signature := n.signature) == n
    case (CommitAck(a), CommitAck(b)) => a.(signature := b.signature) == b
    case (Authorisation(c), Authorisation(d)) => c.(signature := d.signature) == d
    case (HighWater(_, _, _, _), HighWater(_, _, _, _)) => s == t
    case _ => false
  }

  /**
    One signed message, one meaning: over all five legs together, equal preimages are equal
    statements up to the signature itself.
   */
  lemma {:induction false} PreimageBindsStatement(s: Statement, t: Statement)
    requires Encodable(s) && Encodable(t)
    ensures Preimage(s) == Preimage(t) <==> SameSigned(s, t)
  {
    hide AnchorPreimage, MarksRespPreimage, CommitAckPreimage, CapPreimage, Restore.RecoveryPreimage;
    if Preimage(s) == Preimage(t) {
      LegsDisjoint(s, t);
      match (s, t)
      case (Freshness(r), Freshness(q)) => AnchorPreimageInjective(r, q);
      case (MarksReply(m), MarksReply(n)) => MarksRespPreimageInjective(m, n);
      case (CommitAck(a), CommitAck(b)) => CommitAckPreimageInjective(a, b);
      case (Authorisation(c), Authorisation(d)) => CapPreimageInjective(c, d);
      case (HighWater(c1, e1, r1, m1), HighWater(c2, e2, r2, m2)) =>
        Restore.RecoveryPreimageInjective(c1, e1, r1, m1, c2, e2, r2, m2);
      case _ =>
    } else if SameSigned(s, t) {
      SignatureIsNotSigned(s, t);
    }
  }

  lemma {:induction false} SignatureIsNotSigned(s: Statement, t: Statement)
    requires SameSigned(s, t)
    ensures Preimage(s) == Preimage(t)
  {
    hide Encode, Restore.RecoveryPreimage;
    match (s, t)
    case (Freshness(r), Freshness(q)) => assert SignedPairs(r) == SignedPairs(q);
    case (MarksReply(m), MarksReply(n)) => assert MarksRespSigned(m) == MarksRespSigned(n);
    case (CommitAck(a), CommitAck(b)) => assert CommitAckSigned(a) == CommitAckSigned(b);
    case (Authorisation(c), Authorisation(d)) => SignedPairsIgnoreSignature(c, d.signature);
    case _ =>
  }
}
