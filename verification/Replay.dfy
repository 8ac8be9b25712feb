/**
  Replay safety of the whole-system machine, for every run: forged commit requests included, and with
  nothing assumed of the hash. Two arguments are kept apart. Request ids and epochs alone rule out that
  one capability is accepted twice; that counters rise lane by lane also needs versions that never fall.
 */
module Replay {
  import opened Wrappers
  import opened Bytes
  import opened Cbor
  import opened Crypto
  import opened Anchor
  import opened AntiRollback
  import opened Boot
  import opened Capabilities
  import opened Keystore
  import opened Marks
  import opened Positional
  import Preimages
  import Restore

  // ---------------------------------------------------------------- what is on record

  /** One record per epoch and per request id, for an environment that validates. */
  predicate OneRecordEach(w: World) {
    && w.ledger != []
    && |w.ledger[0].body.config.environmentIdentifier| <= 64
    && (forall i | 0 <= i < |w.ledger| :: w.ledger[i].body.freshnessEpoch == Base(w) + i)
    && (forall i, j | 0 <= i < j < |w.ledger| :: w.ledger[i].requestId != w.ledger[j].requestId)
  }

  function EntryAt(w: World, epoch: nat): Entry
    requires Recorded(w, epoch)
  {
    w.ledger[epoch - Base(w)]
  }

  function VersionAt(w: World, epoch: nat): u64
    requires Recorded(w, epoch)
  {
    At(w, epoch).structuralVersion
  }

  /** What a statement about this scope says, version and request id only. */
  ghost predicate StatementSound(w: World, s: Preimages.Statement)
    requires w.ledger != []
  {
    Preimages.Encodable(s) &&
    (Concerns(w, s) ==>
       match s
       case Freshness(r) => Recorded(w, r.epoch) && r.structuralVersion == VersionAt(w, r.epoch)
       case CommitAck(a) =>
         && Recorded(w, a.epoch) && a.structuralVersion == VersionAt(w, a.epoch)
         && a.requestId == EntryAt(w, a.epoch).requestId
       case _ => true)
  }

  ghost predicate StatementsSound(w: World) {
    w.ledger != [] && forall s | s in w.signed :: StatementSound(w, s)
  }

  /** A body whose epoch is on record with the body's own version. */
  ghost predicate OnRecord(w: World, b: KeystoreBody) {
    && Recorded(w, b.freshnessEpoch) && ValidBody(b) && Home(w, b)
    && b.structuralVersion == VersionAt(w, b.freshnessEpoch)
  }

  ghost predicate BodiesOnRecord(w: World) {
    && (forall b | b in w.emitted :: OnRecord(w, b))
    && (w.live.Some? ==> OnRecord(w, w.live.value))
    && (w.booting.Some? ==> w.live.None? && w.pending.None? && OnRecord(w, w.booting.value.body))
  }

  /** A proposal is the enclave's, for the epoch after a record of no higher version. */
  ghost predicate ProposalSound(w: World, e: Entry) {
    var b := e.body;
    && w.ledger != [] && e.forged.None? && |e.requestId| <= MAX_REQUEST_ID_LEN && ValidBody(b) && Home(w, b)
    && b.freshnessEpoch > 0 && Recorded(w, b.freshnessEpoch - 1)
    && VersionAt(w, b.freshnessEpoch - 1) <= b.structuralVersion
  }

  /** What is pending steps up from the live body; a claim takes the next counter of its lane. */
  ghost predicate PendingStepsUp(b: KeystoreBody, q: Pending) {
    var c := q.entry.body;
    && c.freshnessEpoch == b.freshnessEpoch + 1
    && b.structuralVersion <= c.structuralVersion
    && (forall lane :: LaneHigh(b, lane) <= LaneHigh(c, lane))
    && (q.claim.Some? ==>
          var a := q.claim.value;
          && a.epoch == c.freshnessEpoch && a.cap.requestId == q.entry.requestId
          && b.structuralVersion < c.structuralVersion
          && a.cap.counter == LaneHigh(b, a.lane) + 1 && a.cap.counter <= LaneHigh(c, a.lane))
  }

  ghost predicate ProposalsSound(w: World) {
    && (forall e, n | (e, n) in w.proposals :: ProposalSound(w, e))
    && (w.pending.Some? ==>
          && w.live.Some? && (w.pending.value.entry, w.pending.value.nonce) in w.proposals
          && PendingStepsUp(w.live.value, w.pending.value))
  }

  /** Each acceptance has a record of its own, under its capability's request id; epochs ascend. */
  ghost predicate AcceptancesOnRecord(w: World) {
    && (forall k | 0 <= k < |w.accepted| ::
          var a := w.accepted[k];
          Recorded(w, a.epoch) && EntryAt(w, a.epoch).requestId == a.cap.requestId)
    && (forall i, j | 0 <= i < j < |w.accepted| :: w.accepted[i].epoch < w.accepted[j].epoch)
  }

  /** The epoch that a process in ceremony will be told, whatever reply it takes. */
  ghost predicate Answers(w: World, r: AnchorResponse) {
    && w.ledger != [] && Challenging(w) && Preimages.Freshness(r) in w.signed && Concerns(w, Preimages.Freshness(r))
    && r.nonce == w.booting.value.nonce.value
  }

  /** No process runs, and no reply answers one, from before an acceptance. */
  ghost predicate AheadOfAcceptances(w: World) {
    forall a | a in w.accepted ::
      && (w.live.Some? ==> a.epoch <= w.live.value.freshnessEpoch)
      && (forall r | Answers(w, r) :: a.epoch <= r.epoch)
  }

  ghost predicate Sound(w: World) {
    && OneRecordEach(w) && StatementsSound(w) && BodiesOnRecord(w) && ProposalsSound(w)
    && AcceptancesOnRecord(w) && AheadOfAcceptances(w)
  }

  // ---------------------------------------------------------------- counters, lane by lane

  /** No record has a lower version than the one before it. */
  predicate VersionsRise(w: World) {
    forall i, j | 0 <= i < j < |w.ledger| :: w.ledger[i].body.structuralVersion <= w.ledger[j].body.structuralVersion
  }

  /** The body knows every acceptance up to its own version. */
  ghost predicate Covers(w: World, b: KeystoreBody) {
    forall a | a in w.accepted && Recorded(w, a.epoch) && VersionAt(w, a.epoch) <= b.structuralVersion ::
      a.cap.counter <= LaneHigh(b, a.lane)
  }

  ghost predicate BodiesCover(w: World) {
    && (forall b | b in w.emitted :: Covers(w, b))
    && (w.live.Some? ==> Covers(w, w.live.value))
    && (w.booting.Some? ==> Covers(w, w.booting.value.body))
  }

  /** A version that no emitted body and no acceptance exceeds. */
  ghost predicate OnTop(w: World, version: u64) {
    && (forall b | b in w.emitted :: b.structuralVersion <= version)
    && (forall a | a in w.accepted && Recorded(w, a.epoch) :: VersionAt(w, a.epoch) <= version)
  }

  ghost predicate TopVersion(w: World) {
    && (w.live.Some? ==> OnTop(w, w.live.value.structuralVersion))
    && (forall r | Answers(w, r) :: OnTop(w, r.structuralVersion))
  }

  ghost predicate CountersRise(w: World) {
    forall i, j | 0 <= i < j < |w.accepted| && w.accepted[i].lane == w.accepted[j].lane ::
      w.accepted[i].cap.counter < w.accepted[j].cap.counter
  }

  ghost predicate LanesSound(w: World) {
    BodiesCover(w) && TopVersion(w) && CountersRise(w)
  }

  // ---------------------------------------------------------------- what growing the ledger keeps

  ghost predicate Grows(w: World, v: World) {
    w.ledger != [] && w.ledger <= v.ledger
  }

  lemma {:induction false} RecordKept(w: World, v: World, epoch: nat)
    requires Grows(w, v) && Recorded(w, epoch)
    ensures Recorded(v, epoch) && EntryAt(v, epoch) == EntryAt(w, epoch) && At(v, epoch) == At(w, epoch)
  {
  }

  lemma {:induction false} ConcernsKept(w: World, v: World)
    requires Grows(w, v)
    ensures forall s :: Concerns(w, s) <==> Concerns(v, s)
  {
    assert w.ledger[0] == v.ledger[0];
  }

  lemma {:induction false} OnRecordKept(w: World, v: World, b: KeystoreBody)
    requires Grows(w, v) && OnRecord(w, b)
    ensures OnRecord(v, b)
  {
    hide ValidBody;
    RecordKept(w, v, b.freshnessEpoch);
  }

  lemma {:induction false} BodiesKept(w: World, v: World)
    requires Grows(w, v) && BodiesOnRecord(w)
    ensures forall b | b in w.emitted :: OnRecord(v, b)
    ensures w.live.Some? ==> OnRecord(v, w.live.value)
    ensures w.booting.Some? ==> OnRecord(v, w.booting.value.body)
  {
    hide OnRecord;
    forall b | OnRecord(w, b) ensures OnRecord(v, b) {
      OnRecordKept(w, v, b);
    }
  }

  lemma {:induction false} StatementsKept(w: World, v: World)
    requires Grows(w, v) && StatementsSound(w)
    ensures forall s | s in w.signed :: StatementSound(v, s)
  {
    hide Preimages.Encodable;
    ConcernsKept(w, v);
    forall s | s in w.signed ensures StatementSound(v, s) {
      assert StatementSound(w, s);
    }
  }

  lemma {:induction false} ProposalsKept(w: World, v: World)
    requires Grows(w, v) && ProposalsSound(w)
    ensures forall e, n | (e, n) in w.proposals :: ProposalSound(v, e)
  {
    hide ValidBody, PendingStepsUp;
    forall e, n | (e, n) in w.proposals ensures ProposalSound(v, e) {
      assert ProposalSound(w, e);
      RecordKept(w, v, e.body.freshnessEpoch - 1);
    }
  }

  lemma {:induction false} AcceptancesKept(w: World, v: World)
    requires Grows(w, v) && AcceptancesOnRecord(w) && v.accepted == w.accepted
    ensures AcceptancesOnRecord(v)
  {
    forall k | 0 <= k < |v.accepted| ensures Recorded(v, v.accepted[k].epoch)
      && EntryAt(v, v.accepted[k].epoch).requestId == v.accepted[k].cap.requestId
    {
      RecordKept(w, v, w.accepted[k].epoch);
    }
  }

  /** Acceptances are the same and on the same records, so coverage and tops are the same. */
  lemma {:induction false} CoverKept(w: World, v: World, b: KeystoreBody)
    requires Grows(w, v) && AcceptancesOnRecord(w) && v.accepted == w.accepted && Covers(w, b)
    ensures Covers(v, b)
  {
    hide LaneHigh;
    forall a | a in v.accepted && Recorded(v, a.epoch) && VersionAt(v, a.epoch) <= b.structuralVersion
      ensures a.cap.counter <= LaneHigh(b, a.lane)
    {
      AcceptedIsRecorded(w, a);
      RecordKept(w, v, a.epoch);
    }
  }

  lemma {:induction false} AcceptedIsRecorded(w: World, a: Acceptance)
    requires AcceptancesOnRecord(w) && a in w.accepted
    ensures Recorded(w, a.epoch) && EntryAt(w, a.epoch).requestId == a.cap.requestId
  {
    var k :| 0 <= k < |w.accepted| && w.accepted[k] == a;
  }

  lemma {:induction false} TopKept(w: World, v: World, version: u64)
    requires Grows(w, v) && AcceptancesOnRecord(w) && v.accepted == w.accepted && v.emitted == w.emitted
    requires OnTop(w, version)
    ensures OnTop(v, version)
  {
    forall a | a in v.accepted && Recorded(v, a.epoch) ensures VersionAt(v, a.epoch) <= version {
      AcceptedIsRecorded(w, a);
      RecordKept(w, v, a.epoch);
    }
  }

  lemma {:induction false} BodiesCoverKept(w: World, v: World)
    requires Grows(w, v) && AcceptancesOnRecord(w) && v.accepted == w.accepted && BodiesCover(w)
    ensures forall b | b in w.emitted :: Covers(v, b)
    ensures w.live.Some? ==> Covers(v, w.live.value)
    ensures w.booting.Some? ==> Covers(v, w.booting.value.body)
  {
    hide Covers;
    forall b | Covers(w, b) ensures Covers(v, b) {
      CoverKept(w, v, b);
    }
  }

  lemma {:induction false} LastIsLatest(w: World)
    requires OneRecordEach(w)
    ensures Recorded(w, Last(w).freshnessEpoch) && At(w, Last(w).freshnessEpoch) == Last(w)
    ensures Last(w).freshnessEpoch == Base(w) + |w.ledger| - 1
  {
    assert w.ledger[|w.ledger| - 1].body.freshnessEpoch == Base(w) + (|w.ledger| - 1);
  }

  /** With rising versions the latest record is on top. */
  lemma {:induction false} LastOnTop(w: World)
    requires OneRecordEach(w) && BodiesOnRecord(w) && AcceptancesOnRecord(w) && VersionsRise(w)
    ensures OnTop(w, Last(w).structuralVersion)
  {
    hide ValidBody;
    var n := |w.ledger| - 1;
    forall epoch: nat | Recorded(w, epoch) ensures VersionAt(w, epoch) <= Last(w).structuralVersion {
      var i := epoch - Base(w);
      assert w.ledger[i].body.structuralVersion <= w.ledger[n].body.structuralVersion;
    }
    forall b | b in w.emitted ensures b.structuralVersion <= Last(w).structuralVersion {
      assert OnRecord(w, b);
    }
  }

  // ---------------------------------------------------------------- the anchor's steps

  /** A statement that is sound and, if it answers a process, states the latest record. */
  lemma {:induction false} SigningKeeps(w: World, s: Preimages.Statement)
    requires Sound(w) && StatementSound(w, s)
    requires Concerns(w, s) && s.Freshness? ==> s.r.epoch == Last(w).freshnessEpoch
    ensures Sound(Signed(w, s))
    ensures LanesSound(w) && VersionsRise(w)
            && (Concerns(w, s) && s.Freshness? ==> s.r.structuralVersion == Last(w).structuralVersion) ==>
              LanesSound(Signed(w, s))
  {
    hide StatementSound, OnRecord, ProposalSound, PendingStepsUp, Covers, OnTop, VersionsRise, CountersRise, Concerns;
    var v := Signed(w, s);
    ConcernsKept(w, v);
    BodiesKept(w, v);
    StatementsKept(w, v);
    ProposalsKept(w, v);
    AcceptancesKept(w, v);
    StatementStays(w, v, s);
    LastIsLatest(w);
    forall a, r | a in v.accepted && Answers(v, r) ensures a.epoch <= r.epoch {
      AcceptedIsRecorded(w, a);
      if !Answers(w, r) {
        assert Preimages.Freshness(r) == s;
      }
    }
    if LanesSound(w) && VersionsRise(w)
       && (Concerns(w, s) && s.Freshness? ==> s.r.structuralVersion == Last(w).structuralVersion)
    {
      BodiesCoverKept(w, v);
      LastOnTop(w);
      SigningKeepsTop(w, s);
      SameCounters(w, v);
    }
  }

  lemma {:induction false} StatementStays(w: World, v: World, s: Preimages.Statement)
    requires Grows(w, v) && StatementSound(w, s)
    ensures StatementSound(v, s)
  {
    hide Preimages.Encodable;
    ConcernsKept(w, v);
  }

  lemma {:induction false} SigningKeepsTop(w: World, s: Preimages.Statement)
    requires w.ledger != [] && Sound(w) && TopVersion(w) && OnTop(w, Last(w).structuralVersion)
    requires Concerns(w, s) && s.Freshness? ==> s.r.structuralVersion == Last(w).structuralVersion
    ensures TopVersion(Signed(w, s))
  {
    hide StatementsSound, BodiesOnRecord, ProposalsSound, OnTop, AheadOfAcceptances, OneRecordEach, Concerns;
    var v := Signed(w, s);
    ConcernsKept(w, v);
    forall version | OnTop(w, version) ensures OnTop(v, version) {
      TopKept(w, v, version);
    }
    forall r | Answers(v, r) ensures OnTop(v, r.structuralVersion) {
      if !Answers(w, r) {
        assert Preimages.Freshness(r) == s;
      }
    }
  }

  lemma {:induction false} SameCounters(w: World, v: World)
    requires CountersRise(w) && v.accepted == w.accepted
    ensures CountersRise(v)
  {
  }

  /** A new record, the enclave's or the host's, at the next epoch under a new request id. */
  lemma {:induction false} AppendingKeeps(w: World, e: Entry)
    requires Sound(w) && Appends(w, e)
    ensures Sound(w.(ledger := w.ledger + [e]))
    ensures LanesSound(w) ==> LanesSound(w.(ledger := w.ledger + [e]))
  {
    hide StatementSound, OnRecord, ProposalSound, PendingStepsUp, Covers, OnTop, CountersRise, Concerns;
    var v := w.(ledger := w.ledger + [e]);
    ConcernsKept(w, v);
    AppendedOnce(w, e);
    BodiesKept(w, v);
    StatementsKept(w, v);
    ProposalsKept(w, v);
    AcceptancesKept(w, v);
    forall r | Answers(v, r) ensures Answers(w, r) {
    }
    if LanesSound(w) {
      BodiesCoverKept(w, v);
      forall version | OnTop(w, version) ensures OnTop(v, version) {
        TopKept(w, v, version);
      }
      SameCounters(w, v);
    }
  }

  lemma {:induction false} AppendedOnce(w: World, e: Entry)
    requires OneRecordEach(w) && Appends(w, e)
    ensures OneRecordEach(w.(ledger := w.ledger + [e]))
  {
    LastIsLatest(w);
    var v, n := w.(ledger := w.ledger + [e]), |w.ledger|;
    assert v.ledger[0] == w.ledger[0] && v.ledger[n] == e;
    forall i, j | 0 <= i < j < |v.ledger| ensures v.ledger[i].requestId != v.ledger[j].requestId {
      assert v.ledger[i] == w.ledger[i];
    }
  }

  /** The acknowledgement of what is on record is sound. */
  lemma {:induction false} AckSound(p: Primitives, w: World, e: Entry, nonce: bytes32, signature: bytes64)
    requires OneRecordEach(w) && |e.requestId| <= MAX_REQUEST_ID_LEN && |e.body.config.environmentIdentifier| <= 64
    requires AlreadyRecorded(p, w, e)
    ensures StatementSound(w, AckStatement(p, e, nonce, signature))
  {
    hide RecordDigest;
    var i :| 0 <= i < |w.ledger| && SameRecord(p, w.ledger[i], e);
    assert w.ledger[i].body.freshnessEpoch == Base(w) + i;
  }

  /** Delivering any request for this scope that the anchor takes, or has taken before. */
  lemma {:induction false} RecordingKeeps(p: Primitives, w: World, e: Entry, nonce: bytes32, signature: bytes64)
    requires Sound(w) && (Appends(w, e) || AlreadyRecorded(p, w, e))
    requires |e.requestId| <= MAX_REQUEST_ID_LEN && |e.body.config.environmentIdentifier| <= 64
    ensures var v := Signed(Appended(p, w, e), AckStatement(p, e, nonce, signature));
            Sound(v) && (LanesSound(w) && VersionsRise(v) ==> LanesSound(v))
  {
    hide Sound, LanesSound, StatementSound, SameRecord, Appends, RecordDigest, AckFor, Concerns;
    var v := Appended(p, w, e);
    if !AlreadyRecorded(p, w, e) {
      AppendingKeeps(w, e);
      assert v.ledger[|w.ledger|] == e;
      RecordOfItself(p, e);
      assert AlreadyRecorded(p, v, e);
    }
    SoundRecords(v);
    AckSound(p, v, e, nonce, signature);
    SigningKeeps(v, AckStatement(p, e, nonce, signature));
    if VersionsRise(Signed(v, AckStatement(p, e, nonce, signature))) {
      assert VersionsRise(v);
    }
  }

  lemma {:induction false} RecordOfItself(p: Primitives, e: Entry)
    ensures SameRecord(p, e, e)
  {
  }

  lemma {:induction false} SoundRecords(w: World)
    requires Sound(w)
    ensures OneRecordEach(w) && BodiesOnRecord(w) && ProposalsSound(w) && StatementsSound(w)
  {
    hide OneRecordEach, BodiesOnRecord, ProposalsSound, StatementsSound, AcceptancesOnRecord, AheadOfAcceptances;
  }

  // ---------------------------------------------------------------- boot steps

  /** A ceremony on a body that is on record and covers what it should; a nonce it draws is unused. */
  lemma {:induction false} CeremonyKeeps(w: World, v: World, b: KeystoreBody, nonce: Option<bytes32>)
    requires Sound(w) && v == BootingWith(w, b, nonce).(seen := v.seen) && OnRecord(w, b)
    requires nonce.Some? ==> !NonceUsed(w, nonce.value)
    ensures Sound(v)
    ensures LanesSound(w) && Covers(w, b) ==> LanesSound(v)
  {
    hide StatementSound, OnRecord, ProposalSound, PendingStepsUp, Covers, OnTop, CountersRise, Concerns;
    ConcernsKept(w, v);
    BodiesKept(w, v);
    StatementsKept(w, v);
    ProposalsKept(w, v);
    AcceptancesKept(w, v);
    OnRecordKept(w, v, b);
    NothingAnswers(w, v, nonce);
    if LanesSound(w) && Covers(w, b) {
      BodiesCoverKept(w, v);
      CoverKept(w, v, b);
      SameCounters(w, v);
    }
  }

  lemma {:induction false} NothingAnswers(w: World, v: World, nonce: Option<bytes32>)
    requires v.signed == w.signed && v.booting.Some? && v.booting.value.nonce == nonce
    requires nonce.Some? ==> !NonceUsed(w, nonce.value)
    ensures forall r :: !Answers(v, r)
  {
  }

  /** The reply that a process takes answers it. */
  lemma {:induction false} ReplyAnswers(p: Primitives, w: World, response: bytes) returns (r: AnchorResponse)
    requires StatementsSound(w) && Challenging(w) && Home(w, w.booting.value.body)
    requires BootVerified(p, w, response).Some?
    ensures Answers(w, r) && StateOf(r) == BootVerified(p, w, response).value
    ensures Recorded(w, r.epoch) && r.structuralVersion == VersionAt(w, r.epoch)
  {
    hide DecodedResponse, AnchorPreimage, Preimages.Preimage, WireEntries, Encode;
    var q := DecodedResponse(response).value;
    AnchorWireExact(response, q);
    var s :| s in w.signed && Preimages.Preimage(s) == AnchorPreimage(q);
    PreimageOfFreshness(q);
    assert StatementSound(w, s);
    Preimages.PreimageBindsStatement(s, Preimages.Freshness(q));
    r := s.r;
    assert r.(signature := q.signature) == q;
  }

  lemma {:induction false} BootingOnRecord(w: World)
    requires BodiesOnRecord(w) && w.booting.Some?
    ensures OnRecord(w, w.booting.value.body) && Home(w, w.booting.value.body)
  {
    hide ValidBody;
  }

  /** An adopted body is on record where it was adopted from, and covers what the body before it did. */
  lemma {:induction false} AdoptedOnRecord(p: Primitives, w: World, response: bytes, reply: bytes)
    requires StatementsSound(w) && BodiesOnRecord(w) && CanAdopt(p, w, response, reply)
    ensures var c := AdoptedBody(p, w, response, reply).value;
            OnRecord(w, c) && (Covers(w, w.booting.value.body) ==> Covers(w, c))
  {
    hide StatementsSound, BodiesOnRecord, BootVerified, AdoptVerdict, MarksOf, ValidBody, LocalDecision, Seeded,
        Dominates, MarksPayload, ReplyPayload, LaneHigh;
    BootingOnRecord(w);
    var b, nonce := w.booting.value.body, w.booting.value.nonce.value;
    var st := BootVerified(p, w, response).value;
    var r := ReplyAnswers(p, w, response);
    var c := AdoptedBody(p, w, response, reply).value;
    AdoptCarriesCommittedMarks(p, reply, b, st, nonce);
    FreshIsCurrent(p, b, st);
    SeededKeeps(b, MarksOf(c), st.epoch);
    forall lane ensures LaneHigh(b, lane) <= LaneHigh(c, lane) {
      AdoptRaises(b, c, st.epoch, lane);
    }
  }

  lemma {:induction false} AdoptRaises(b: KeystoreBody, c: KeystoreBody, epoch: u64, lane: Lane)
    requires c == Seeded(b, MarksOf(c), epoch) && Dominates(MarksOf(c), b)
    ensures LaneHigh(b, lane) <= LaneHigh(c, lane)
  {
    hide Highest, MarksOf, Dominates, Seeded;
    DominanceNeverLowers(MarksOf(c), b, epoch, lane);
    SeededKeeps(b, MarksOf(c), epoch);
  }

  /** A process becomes ready at or above everything emitted or accepted. */
  lemma {:induction false} ReadyKeeps(p: Primitives, w: World, response: bytes)
    requires Sound(w) && CanReady(p, w, response)
    ensures var v := w.(live := Some(w.booting.value.body), booting := None, pending := None);
            Sound(v) && (LanesSound(w) ==> LanesSound(v))
  {
    hide StatementSound, OnRecord, ProposalSound, PendingStepsUp, Covers, OnTop, CountersRise, Concerns, BootVerified,
        LocalDecision;
    var b := w.booting.value.body;
    var v := w.(live := Some(b), booting := None, pending := None);
    BootingOnRecord(w);
    var r := ReplyAnswers(p, w, response);
    FreshIsCurrent(p, b, BootVerified(p, w, response).value);
    ReadyEpoch(p, b, r, BootVerified(p, w, response).value);
    BodiesKept(w, v);
    StatementsKept(w, v);
    ProposalsKept(w, v);
    AcceptancesKept(w, v);
    if LanesSound(w) {
      BodiesCoverKept(w, v);
      TopKept(w, v, b.structuralVersion);
      SameCounters(w, v);
    }
  }

  lemma {:induction false} ReadyEpoch(p: Primitives, b: KeystoreBody, r: AnchorResponse, st: AnchorState)
    requires Current(p, b, st) && StateOf(r) == st
    ensures b.freshnessEpoch == r.epoch && b.structuralVersion == r.structuralVersion
  {
    hide LocalDigest;
  }

  // ---------------------------------------------------------------- operations

  /** Proposing a body that steps up from the live one. */
  lemma {:induction false} ProposingKeeps(w: World, e: Entry, nonce: bytes32, claim: Option<Acceptance>)
    requires Sound(w) && w.live.Some? && e.forged.None? && |e.requestId| <= MAX_REQUEST_ID_LEN
    requires ValidBody(e.body) && SameHome(w.live.value, e.body)
    requires PendingStepsUp(w.live.value, Pending(e, nonce, claim))
    ensures Sound(Proposed(w, e, nonce, claim))
    ensures LanesSound(w) ==> LanesSound(Proposed(w, e, nonce, claim))
  {
    hide StatementSound, OnRecord, ProposalSound, Covers, OnTop, CountersRise, Concerns, MarksOf, ValidBody;
    var v := Proposed(w, e, nonce, claim);
    ProposalFromLive(w, e, nonce, claim);
    hide PendingStepsUp;
    BodiesKept(w, v);
    StatementsKept(w, v);
    ProposalsKept(w, v);
    AcceptancesKept(w, v);
    if LanesSound(w) {
      BodiesCoverKept(w, v);
      forall version | OnTop(w, version) ensures OnTop(v, version) {
        TopKept(w, v, version);
      }
      SameCounters(w, v);
    }
  }

  lemma {:induction false} ProposalFromLive(w: World, e: Entry, nonce: bytes32, claim: Option<Acceptance>)
    requires BodiesOnRecord(w) && w.live.Some? && e.forged.None? && |e.requestId| <= MAX_REQUEST_ID_LEN
    requires ValidBody(e.body) && SameHome(w.live.value, e.body)
    requires PendingStepsUp(w.live.value, Pending(e, nonce, claim))
    ensures ProposalSound(Proposed(w, e, nonce, claim), e)
  {
    hide ValidBody, MarksOf, LaneHigh;
    assert OnRecord(w, w.live.value);
  }

  lemma {:induction false} OperateKeeps(p: Primitives, w: World, cap: Capability, opcode: u8, c: KeystoreBody,
      nonce: bytes32)
    requires Sound(w) && CanOperate(p, w, cap, opcode, c)
    ensures Sound(Claimed(w, cap, c, nonce)) && (LanesSound(w) ==> LanesSound(Claimed(w, cap, c, nonce)))
  {
    hide Sound, LanesSound, Accepts, LaneHigh, Proposed, CapLane, ValidBody, AdvancedCounters;
    var b := w.live.value;
    VerifiedCounter(p, cap, opcode, b);
    OperationAdvances(b, CapLane(cap, b.config), cap.counter, c);
    ProposingKeeps(w, Entry(c, cap.requestId), nonce, Some(Acceptance(cap, CapLane(cap, b.config), c.freshnessEpoch)));
  }

  lemma {:induction false} RestoreKeeps(p: Primitives, w: World, cap: Capability, data: Restore.RestoreIngressData,
      high: DecodedMarks, nonce: bytes32)
    requires Sound(w) && CanRestore(p, w, cap, data, high)
    ensures var c := Restored(w.live.value, cap, data, high).value;
            Sound(Claimed(w, cap, c, nonce)) && (LanesSound(w) ==> LanesSound(Claimed(w, cap, c, nonce)))
  {
    hide Sound, LanesSound, Accepts, LaneHigh, Proposed, CapLane, ValidBody, Restore.RestoreCandidate, StepUp;
    var b := w.live.value;
    var c := Restored(b, cap, data, high).value;
    VerifiedCounter(p, cap, OPCODE_RESTORE_BACKUP, b);
    RestoreAdvances(b, cap, data, high);
    Restore.RestoreCandidateOnlyRaises(b, data, high, CapLane(cap, b.config), cap.counter, CapLane(cap, b.config));
    ProposingKeeps(w, Entry(c, cap.requestId), nonce, Some(Acceptance(cap, CapLane(cap, b.config), c.freshnessEpoch)));
  }

  lemma {:induction false} DispenseKeeps(w: World, requestId: bytes, c: KeystoreBody, nonce: bytes32)
    requires Sound(w) && CanDispense(w, requestId, c)
    ensures var v := Proposed(w, Entry(c, requestId), nonce, None);
            Sound(v) && (LanesSound(w) ==> LanesSound(v))
  {
    hide Sound, LanesSound, ValidBody, Highest, Proposed, MarksFit;
    ProposingKeeps(w, Entry(c, requestId), nonce, None);
  }

  /** The acknowledgement that a process takes is the anchor's word on this very request. */
  lemma {:induction false} AckProves(p: Primitives, w: World, ack: bytes)
    requires StatementsSound(w) && ProposalsSound(w) && CanAck(p, w, ack)
    ensures var e := w.pending.value.entry;
            && Recorded(w, e.body.freshnessEpoch) && EntryAt(w, e.body.freshnessEpoch).requestId == e.requestId
            && OnRecord(w, e.body)
  {
    hide DecodedCommitAck, CommitAckPreimage, LocalDigest, Preimages.Preimage, CommitAckEntries, Encode, ValidBody,
        PendingStepsUp;
    var e := w.pending.value.entry;
    assert ProposalSound(w, e);
    var f := DecodedCommitAck(ack, MAX_REQUEST_ID_LEN).value;
    assert CommitAckBytes(ack, f, MAX_REQUEST_ID_LEN);
    var s :| s in w.signed && Preimages.Preimage(s) == CommitAckPreimage(f);
    PreimageOfAck(f);
    assert StatementSound(w, s);
    Preimages.PreimageBindsStatement(s, Preimages.CommitAck(f));
    assert s.a.(signature := f.signature) == f;
  }

  /** An acknowledged operation: live, emitted and, if it claimed one, a new acceptance. */
  lemma {:induction false} AckKeeps(p: Primitives, w: World, ack: bytes)
    requires Sound(w) && CanAck(p, w, ack)
    ensures Sound(Acknowledged(w)) && (LanesSound(w) ==> LanesSound(Acknowledged(w)))
  {
    hide StatementSound, OnRecord, ProposalSound, PendingStepsUp, Covers, OnTop, CountersRise, Concerns,
        CommitAckVerdict, WasSigned, ProposalFor;
    var v, q := Acknowledged(w), w.pending.value;
    AckProves(p, w, ack);
    BodiesKept(w, v);
    StatementsKept(w, v);
    ProposalsKept(w, v);
    OnRecordKept(w, v, q.entry.body);
    AcceptanceAdded(w, q);
    if LanesSound(w) {
      AckKeepsLanes(w, q);
    }
  }

  /** What an acknowledgement adds to the acceptances. */
  lemma {:induction false} AcceptedThen(w: World, q: Pending, a: Acceptance)
    requires w.pending == Some(q)
    ensures a in Acknowledged(w).accepted <==> a in w.accepted || q.claim == Some(a)
  {
  }

  lemma {:induction false} AcceptanceAdded(w: World, q: Pending)
    requires w.pending == Some(q) && w.live.Some? && PendingStepsUp(w.live.value, q)
    requires AcceptancesOnRecord(w) && AheadOfAcceptances(w) && OnRecord(w, q.entry.body)
    requires EntryAt(w, q.entry.body.freshnessEpoch).requestId == q.entry.requestId
    requires w.booting.None?
    ensures AcceptancesOnRecord(Acknowledged(w)) && AheadOfAcceptances(Acknowledged(w))
  {
    var v, c := Acknowledged(w), q.entry.body;
    OldAcceptances(w, q);
    hide ValidBody, LaneHigh, AcceptancesOnRecord, AheadOfAcceptances;
    if q.claim.Some? {
      OneMoreAcceptance(w, v, q.claim.value);
    } else {
      AcceptancesKept(w, v);
    }
    NobodyAsks(w, q);
    assert forall a | a in v.accepted :: a.epoch <= c.freshnessEpoch by {
      forall a | a in v.accepted ensures a.epoch <= c.freshnessEpoch {
        AcceptedThen(w, q, a);
      }
    }
  }

  lemma {:induction false} OldAcceptances(w: World, q: Pending)
    requires w.live.Some? && PendingStepsUp(w.live.value, q) && AheadOfAcceptances(w)
    ensures forall a | a in w.accepted :: a.epoch < q.entry.body.freshnessEpoch
  {
    hide LaneHigh, Answers;
  }

  lemma {:induction false} OneMoreAcceptance(w: World, v: World, a: Acceptance)
    requires AcceptancesOnRecord(w) && v.accepted == w.accepted + [a] && v.ledger == w.ledger
    requires Recorded(w, a.epoch) && EntryAt(w, a.epoch).requestId == a.cap.requestId
    requires forall x | x in w.accepted :: x.epoch < a.epoch
    ensures AcceptancesOnRecord(v)
  {
    forall i, j | 0 <= i < j < |v.accepted| ensures v.accepted[i].epoch < v.accepted[j].epoch {
      assert v.accepted[i] == w.accepted[i] && v.accepted[i] in w.accepted;
    }
  }

  lemma {:induction false} NobodyAsks(w: World, q: Pending)
    requires w.pending == Some(q) && w.booting.None?
    requires forall a | a in Acknowledged(w).accepted :: a.epoch <= q.entry.body.freshnessEpoch
    ensures AheadOfAcceptances(Acknowledged(w))
  {
  }

  lemma {:induction false} AckKeepsLanes(w: World, q: Pending)
    requires w.pending == Some(q) && w.live.Some? && PendingStepsUp(w.live.value, q) && LanesSound(w)
    requires AcceptancesOnRecord(w) && OnRecord(w, q.entry.body) && w.booting.None?
    ensures LanesSound(Acknowledged(w))
  {
    var v, c := Acknowledged(w), q.entry.body;
    LiveKnowsAll(w, q);
    AckOnTop(w, q);
    hide ValidBody, LaneHigh, OnTop, PendingStepsUp;
    forall d | d in v.emitted ensures Covers(v, d) {
      AckCovers(w, q, d);
    }
    AckCovers(w, q, c);
    AckCounters(w, q);
  }

  /** The live body's lanes have reached every acceptance, and a claim goes beyond them. */
  lemma {:induction false} LiveKnowsAll(w: World, q: Pending)
    requires w.live.Some? && PendingStepsUp(w.live.value, q) && LanesSound(w) && AcceptancesOnRecord(w)
    ensures forall a | a in w.accepted ::
              && Recorded(w, a.epoch) && VersionAt(w, a.epoch) <= w.live.value.structuralVersion
              && a.cap.counter <= LaneHigh(w.live.value, a.lane)
  {
    hide LaneHigh, CountersRise;
    forall a | a in w.accepted
      ensures && Recorded(w, a.epoch) && VersionAt(w, a.epoch) <= w.live.value.structuralVersion
              && a.cap.counter <= LaneHigh(w.live.value, a.lane)
    {
      AcceptedIsRecorded(w, a);
      assert OnTop(w, w.live.value.structuralVersion) && Covers(w, w.live.value);
    }
  }

  lemma {:induction false} AckOnTop(w: World, q: Pending)
    requires w.pending == Some(q) && w.live.Some? && PendingStepsUp(w.live.value, q) && TopVersion(w)
    requires OnRecord(w, q.entry.body) && w.booting.None?
    ensures TopVersion(Acknowledged(w))
  {
    hide ValidBody, LaneHigh;
    var v, c := Acknowledged(w), q.entry.body;
    assert OnTop(w, w.live.value.structuralVersion);
    forall a | a in v.accepted && Recorded(v, a.epoch) ensures VersionAt(v, a.epoch) <= c.structuralVersion {
      AcceptedThen(w, q, a);
    }
  }

  lemma {:induction false} AckCovers(w: World, q: Pending, d: KeystoreBody)
    requires w.pending == Some(q) && w.live.Some? && PendingStepsUp(w.live.value, q) && OnRecord(w, q.entry.body)
    requires BodiesCover(w) && TopVersion(w) && (d in w.emitted || d == q.entry.body)
    requires forall a | a in w.accepted ::
               && Recorded(w, a.epoch) && VersionAt(w, a.epoch) <= w.live.value.structuralVersion
               && a.cap.counter <= LaneHigh(w.live.value, a.lane)
    ensures Covers(Acknowledged(w), d)
  {
    hide ValidBody, LaneHigh;
    var v := Acknowledged(w);
    forall a | a in v.accepted && Recorded(v, a.epoch) && VersionAt(v, a.epoch) <= d.structuralVersion
      ensures a.cap.counter <= LaneHigh(d, a.lane)
    {
      AcceptedThen(w, q, a);
      if d in w.emitted {
        assert Covers(w, d) && OnTop(w, w.live.value.structuralVersion);
      }
    }
  }

  lemma {:induction false} AckCounters(w: World, q: Pending)
    requires w.pending == Some(q) && w.live.Some? && PendingStepsUp(w.live.value, q) && CountersRise(w)
    requires forall a | a in w.accepted :: a.cap.counter <= LaneHigh(w.live.value, a.lane)
    ensures CountersRise(Acknowledged(w))
  {
    hide LaneHigh;
    var v := Acknowledged(w);
    forall i, j | 0 <= i < j < |v.accepted| && v.accepted[i].lane == v.accepted[j].lane
      ensures v.accepted[i].cap.counter < v.accepted[j].cap.counter
    {
      assert v.accepted[i] == w.accepted[i] && v.accepted[i] in w.accepted;
    }
  }

  lemma {:induction false} LossKeeps(w: World, v: World)
    requires Sound(w)
    requires v == w.(pending := None) || v == w.(live := None, pending := None, booting := None)
    ensures Sound(v) && (LanesSound(w) ==> LanesSound(v))
  {
    hide StatementSound, OnRecord, ProposalSound, PendingStepsUp, LanesSound, Concerns, Answers;
    BodiesKept(w, v);
    StatementsKept(w, v);
    ProposalsKept(w, v);
    AcceptancesKept(w, v);
    FewerAnswers(w, v);
    if LanesSound(w) {
      LossKeepsLanes(w, v);
    }
  }

  lemma {:induction false} FewerAnswers(w: World, v: World)
    requires w.ledger != []
    requires v == w.(pending := None) || v == w.(live := None, pending := None, booting := None)
    ensures forall r :: Answers(v, r) ==> Answers(w, r)
  {
    ConcernsKept(w, v);
    hide Concerns;
  }

  lemma {:induction false} LossKeepsLanes(w: World, v: World)
    requires w.ledger != [] && AcceptancesOnRecord(w) && LanesSound(w)
    requires v == w.(pending := None) || v == w.(live := None, pending := None, booting := None)
    ensures LanesSound(v)
  {
    hide Covers, OnTop, CountersRise, Answers, AcceptancesOnRecord;
    BodiesCoverKept(w, v);
    FewerAnswers(w, v);
    forall version | OnTop(w, version) ensures OnTop(v, version) {
      TopKept(w, v, version);
    }
    SameCounters(w, v);
  }

  // ---------------------------------------------------------------- every step, every run

  /** Every step keeps what is on record sound, and the lanes as well while versions rise. */
  lemma {:induction false} StepKeepsSound(p: Primitives, w: World, s: Step)
    requires w.ledger != [] && Sound(w) && Enabled(p, w, s)
    ensures Sound(After(p, w, s))
    ensures LanesSound(w) && VersionsRise(After(p, w, s)) ==> LanesSound(After(p, w, s))
  {
    hide Sound, LanesSound, CanAdopt, CanReady, CanOperate, CanRestore, CanDispense, CanAck, Describes, Concerns,
        NonceUsed, Proposed, Claimed, Acknowledged, AckStatement, Appends, AlreadyRecorded, VersionsRise, BootingWith,
        Signed, Appended;
    match s
    case SignFreshness(r) => FreshnessKeeps(p, w, r);
    case SignMarks(m) => MarksReplyKeeps(w, m);
    case SignElsewhere(t) => ElsewhereKeeps(w, t);
    case RecordCommit(e, nonce, signature) => ProposalRecorded(p, w, e, nonce, signature);
    case RecordForged(f, nonce, signature) => ForgeryRecorded(p, w, f, nonce, signature);
    case BootStart(b) => EmittedCeremony(w, b);
    case BootDraw(nonce) => SameCeremony(w, Some(nonce));
    case BootDrop => SameCeremony(w, None);
    case BootAdopt(response, reply) => AdoptKeeps(p, w, response, reply);
    case BootReady(response) => ReadyKeeps(p, w, response);
    case Operate(cap, opcode, c, nonce) => OperateKeeps(p, w, cap, opcode, c, nonce);
    case RestoreFrom(cap, data, high, nonce) => RestoreKeeps(p, w, cap, data, high, nonce);
    case Dispense(requestId, c, nonce) => DispenseKeeps(w, requestId, c, nonce);
    case AckReceived(ack) => AckKeeps(p, w, ack);
    case GiveUp => LossKeeps(w, After(p, w, s));
    case Crash => LossKeeps(w, After(p, w, s));
  }

  lemma {:induction false} FreshnessKeeps(p: Primitives, w: World, r: AnchorResponse)
    requires Sound(w) && Describes(p, w, r)
    ensures var v := Signed(w, Preimages.Freshness(r));
            Sound(v) && (LanesSound(w) && VersionsRise(v) ==> LanesSound(v))
  {
    hide LanesSound, RecordDigest, ValidUtf8, StatementsSound, BodiesOnRecord, ProposalsSound, AcceptancesOnRecord,
        AheadOfAcceptances;
    LastIsLatest(w);
    hide OneRecordEach, Sound;
    SigningKeeps(w, Preimages.Freshness(r));
  }

  lemma {:induction false} MarksReplyKeeps(w: World, m: MarksRespFields)
    requires Sound(w) && LegalMarksResp(m, MAX_MARKS_PAYLOAD_LEN)
    ensures var v := Signed(w, Preimages.MarksReply(m));
            Sound(v) && (LanesSound(w) && VersionsRise(v) ==> LanesSound(v))
  {
    hide LanesSound, ValidUtf8, StatementsSound, BodiesOnRecord, ProposalsSound, AcceptancesOnRecord,
        AheadOfAcceptances;
    assert w.ledger != [];
    hide OneRecordEach, Sound;
    SigningKeeps(w, Preimages.MarksReply(m));
  }

  lemma {:induction false} ElsewhereKeeps(w: World, s: Preimages.Statement)
    requires Sound(w) && w.ledger != [] && Preimages.Encodable(s) && !Concerns(w, s)
    ensures var v := Signed(w, s);
            Sound(v) && (LanesSound(w) && VersionsRise(v) ==> LanesSound(v))
  {
    hide LanesSound, Sound, Preimages.Encodable, Concerns;
    SigningKeeps(w, s);
  }

  lemma {:induction false} ProposalRecorded(p: Primitives, w: World, e: Entry, nonce: bytes32, signature: bytes64)
    requires Sound(w) && w.ledger != [] && CanRecord(p, w, e, nonce)
    ensures var v := Signed(Appended(p, w, e), AckStatement(p, e, nonce, signature));
            Sound(v) && (LanesSound(w) && VersionsRise(v) ==> LanesSound(v))
  {
    SoundRecords(w);
    hide Sound, LanesSound, Appends, AlreadyRecorded, AckStatement, ValidCounters, ValidEntries, ValidAudit,
        PendingStepsUp;
    assert ProposalSound(w, e);
    hide ProposalsSound, BodiesOnRecord, OneRecordEach;
    RecordingKeeps(p, w, e, nonce, signature);
  }

  lemma {:induction false} ForgeryRecorded(p: Primitives, w: World, f: Forgery, nonce: bytes32, signature: bytes64)
    requires Sound(w) && w.ledger != [] && CanForge(p, w, f)
    ensures var v := Signed(Appended(p, w, ForgedEntry(w, f)), AckStatement(p, ForgedEntry(w, f), nonce, signature));
            Sound(v) && (LanesSound(w) && VersionsRise(v) ==> LanesSound(v))
  {
    SoundRecords(w);
    hide Sound, LanesSound, Appends, AlreadyRecorded, AckStatement, ProposalsSound, BodiesOnRecord, StatementsSound;
    RecordingKeeps(p, w, ForgedEntry(w, f), nonce, signature);
  }

  lemma {:induction false} EmittedCeremony(w: World, b: KeystoreBody)
    requires Sound(w) && b in w.emitted
    ensures Sound(BootingWith(w, b, None)) && (LanesSound(w) ==> LanesSound(BootingWith(w, b, None)))
  {
    SoundRecords(w);
    hide Sound, OnRecord, Covers, TopVersion, CountersRise, BootingWith;
    assert OnRecord(w, b);
    CeremonyKeeps(w, BootingWith(w, b, None), b, None);
    if LanesSound(w) {
      assert Covers(w, b);
    }
  }

  lemma {:induction false} SameCeremony(w: World, nonce: Option<bytes32>)
    requires Sound(w) && w.booting.Some? && (nonce.Some? ==> !NonceUsed(w, nonce.value))
    ensures var v := BootingWith(w, w.booting.value.body, nonce);
            Sound(v) && (LanesSound(w) ==> LanesSound(v))
  {
    SoundRecords(w);
    hide Sound, OnRecord, Covers, TopVersion, CountersRise, BootingWith, NonceUsed;
    var b := w.booting.value.body;
    CeremonyKeeps(w, BootingWith(w, b, nonce), b, nonce);
  }

  lemma {:induction false} AdoptKeeps(p: Primitives, w: World, response: bytes, reply: bytes)
    requires Sound(w) && CanAdopt(p, w, response, reply)
    ensures var c := AdoptedBody(p, w, response, reply).value;
            var v := BootingWith(w, c, None).(seen := w.seen + {MarksOf(c)});
            Sound(v) && (LanesSound(w) ==> LanesSound(v))
  {
    SoundRecords(w);
    hide Sound, OnRecord, Covers, TopVersion, CountersRise, MarksOf, AdoptedBody, BootVerified, LocalDecision,
        BodiesOnRecord, StatementsSound, OneRecordEach, ProposalsSound;
    AdoptedOnRecord(p, w, response, reply);
    var c := AdoptedBody(p, w, response, reply).value;
    CeremonyKeeps(w, BootingWith(w, c, None).(seen := w.seen + {MarksOf(c)}), c, None);
  }

  lemma {:induction false} InitialSound(w: World)
    requires Initial(w)
    ensures Sound(w) && LanesSound(w)
  {
    hide ValidEntries, ValidCounters, ValidAudit, MarksOf, MarksFit, LaneHigh;
  }

  /** Recording is all that moves the ledger. */
  lemma {:induction false} LedgerAfter(p: Primitives, w: World, s: Step)
    requires w.ledger != [] && Enabled(p, w, s)
    ensures After(p, w, s).ledger
            == match s
               case RecordCommit(e, _, _) => Appended(p, w, e).ledger
               case RecordForged(f, _, _) => Appended(p, w, ForgedEntry(w, f)).ledger
               case _ => w.ledger
    ensures w.ledger <= After(p, w, s).ledger
  {
    hide CanAdopt, CanReady, CanOperate, CanRestore, CanDispense, CanAck, Describes, Concerns, NonceUsed, AckStatement,
        Appends, AlreadyRecorded, MarksOf, AdoptedBody, Restored, CapLane, CanRecord, CanForge, ForgedEntry;
  }

  lemma {:induction false} VersionsRoseBefore(w: World, v: World)
    requires w.ledger <= v.ledger && VersionsRise(v)
    ensures VersionsRise(w)
  {
    forall i, j | 0 <= i < j < |w.ledger|
      ensures w.ledger[i].body.structuralVersion <= w.ledger[j].body.structuralVersion
    {
      assert w.ledger[i] == v.ledger[i] && w.ledger[j] == v.ledger[j];
    }
  }

  lemma {:induction false} RunIsSound(p: Primitives, ws: seq<World>, steps: seq<Step>)
    requires Run(p, ws, steps)
    ensures Sound(ws[|steps|]) && (VersionsRise(ws[|steps|]) ==> LanesSound(ws[|steps|]))
    decreases |steps|
  {
    hide Sound, LanesSound, VersionsRise, Enabled, After, Initial;
    if steps == [] {
      InitialSound(ws[0]);
    } else {
      var n := |steps| - 1;
      RunPrefix(p, ws, steps, n);
      RunIsSound(p, ws[..n + 1], steps[..n]);
      StepKeepsSound(p, ws[n], steps[n]);
      LedgerAfter(p, ws[n], steps[n]);
      if VersionsRise(ws[n + 1]) {
        VersionsRoseBefore(ws[n], ws[n + 1]);
      }
    }
  }

  /**
    Replay safety. Over every run of operations, lost acknowledgements, crashes, boots from any body
    handed out earlier, adopts, restores and commit requests that the host makes up, each acceptance has
    a later epoch and another request id than those before it, so no capability is accepted twice. If
    no record has a lower version than the one before it, the counters accepted on one (authority,
    scope class, scope target) lane strictly increase as well. Assumed: one process at a time, and an
    anchor that records one request per epoch and one epoch per request id.
   */
  lemma {:induction false} NoCapabilityTwice(p: Primitives, ws: seq<World>, steps: seq<Step>, i: nat, j: nat)
    requires Run(p, ws, steps) && i < j < |ws[|steps|].accepted|
    ensures var a, b := ws[|steps|].accepted[i], ws[|steps|].accepted[j];
            && a.epoch < b.epoch && a.cap.requestId != b.cap.requestId && a.cap != b.cap
            && (VersionsRise(ws[|steps|]) && a.lane == b.lane ==> a.cap.counter < b.cap.counter)
  {
    var w := ws[|steps|];
    RunIsSound(p, ws, steps);
    hide Run, StatementsSound, BodiesOnRecord, ProposalsSound, AheadOfAcceptances, VersionsRise, BodiesCover,
        TopVersion;
    var a, b := w.accepted[i], w.accepted[j];
    assert Recorded(w, a.epoch) && Recorded(w, b.epoch);
    assert w.ledger[a.epoch - Base(w)].requestId != w.ledger[b.epoch - Base(w)].requestId;
  }

  // ---------------------------------------------------------------- when versions rise

  /** The step does not record a made-up request with a lower version than the latest record's. */
  predicate KeepsVersion(w: World, s: Step)
    requires w.ledger != []
  {
    s.RecordForged? ==> Last(w).structuralVersion <= s.forgery.structuralVersion
  }

  function CommitNonce(s: Step): bytes32
    requires s.RecordCommit?
  {
    match s case RecordCommit(_, nonce, _) => nonce
  }

  /** Requests of the enclave never lower the version; only made-up ones can. */
  lemma {:induction false} StepKeepsVersions(p: Primitives, w: World, s: Step)
    requires w.ledger != [] && Sound(w) && VersionsRise(w) && Enabled(p, w, s) && KeepsVersion(w, s)
    ensures VersionsRise(After(p, w, s))
  {
    LedgerAfter(p, w, s);
    if s.RecordCommit? {
      ProposalRises(p, w, s.entry, CommitNonce(s));
      hide Sound, After, Enabled, VersionsRise, Appended;
      AppendedRises(p, w, s.entry);
      SameVersions(Appended(p, w, s.entry), After(p, w, s));
    } else {
      hide Sound, After, Enabled, VersionsRise, Appended;
      if s.RecordForged? {
        AppendedRises(p, w, ForgedEntry(w, s.forgery));
        SameVersions(Appended(p, w, ForgedEntry(w, s.forgery)), After(p, w, s));
      } else {
        SameVersions(w, After(p, w, s));
      }
    }
  }

  lemma {:induction false} ProposalRises(p: Primitives, w: World, e: Entry, nonce: bytes32)
    requires Sound(w) && w.ledger != [] && CanRecord(p, w, e, nonce)
    ensures AlreadyRecorded(p, w, e) || Last(w).structuralVersion <= e.body.structuralVersion
  {
    hide Sound, AlreadyRecorded, OneRecordEach, BodiesOnRecord, StatementsSound, ProposalsSound, RequestKnown,
        ProposalSound;
    SoundRecords(w);
    LastIsLatest(w);
    SoundProposal(w, e, nonce);
    NextVersion(w, e);
  }

  lemma {:induction false} SoundProposal(w: World, e: Entry, nonce: bytes32)
    requires ProposalsSound(w) && (e, nonce) in w.proposals
    ensures ProposalSound(w, e)
  {
    hide ProposalSound, PendingStepsUp;
  }

  lemma {:induction false} NextVersion(w: World, e: Entry)
    requires ProposalSound(w, e) && Recorded(w, Last(w).freshnessEpoch) && At(w, Last(w).freshnessEpoch) == Last(w)
    ensures Appends(w, e) ==> Last(w).structuralVersion <= e.body.structuralVersion
  {
    hide ValidBody, RequestKnown;
  }

  lemma {:induction false} AppendedRises(p: Primitives, w: World, e: Entry)
    requires w.ledger != [] && VersionsRise(w)
    requires AlreadyRecorded(p, w, e) || Last(w).structuralVersion <= e.body.structuralVersion
    ensures VersionsRise(Appended(p, w, e))
  {
    hide AlreadyRecorded;
    var v, n := Appended(p, w, e), |w.ledger|;
    forall i, j | 0 <= i < j < |v.ledger|
      ensures v.ledger[i].body.structuralVersion <= v.ledger[j].body.structuralVersion
    {
      assert v.ledger[i] == w.ledger[i];
      if j == n && i < n - 1 {
        assert w.ledger[i].body.structuralVersion <= w.ledger[n - 1].body.structuralVersion;
      }
    }
  }

  lemma {:induction false} SameVersions(w: World, v: World)
    requires VersionsRise(w) && v.ledger == w.ledger
    ensures VersionsRise(v)
  {
  }

  /** So versions rise over every run in which the host's requests do not lower them, none at all included. */
  lemma {:induction false} RunKeepsVersions(p: Primitives, ws: seq<World>, steps: seq<Step>)
    requires Run(p, ws, steps) && forall i | 0 <= i < |steps| :: ws[i].ledger != [] && KeepsVersion(ws[i], steps[i])
    ensures VersionsRise(ws[|steps|])
    decreases |steps|
  {
    hide Sound, VersionsRise, Enabled, After, Initial, LanesSound, KeepsVersion;
    if steps == [] {
      InitialVersions(ws[0]);
    } else {
      var n := |steps| - 1;
      RunPrefix(p, ws, steps, n);
      RunKeepsVersions(p, ws[..n + 1], steps[..n]);
      RunIsSound(p, ws[..n + 1], steps[..n]);
      StepKeepsVersions(p, ws[n], steps[n]);
    }
  }

  lemma {:induction false} InitialVersions(w: World)
    requires Initial(w)
    ensures VersionsRise(w)
  {
    hide ValidBody, MarksFit;
  }
}
