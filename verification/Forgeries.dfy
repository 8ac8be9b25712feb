/**
  What the host can do by making up commit requests, which nothing authenticates: bring back any body
  it was ever handed, with the spends of that body, and, if it may lower the version, with its counters.
 */
module Forgeries {
  import opened Wrappers
  import opened Bytes
  import opened Cbor
  import opened Crypto
  import opened Anchor
  import opened AntiRollback
  import opened Boot
  import opened Capabilities
  import opened Keystore
  import opened Marks
  import opened Positional
  import Preimages
  import opened Replay

  /** The request that makes the anchor vouch for `b` as its latest record. */
  function RevivalOf(p: Primitives, w: World, b: KeystoreBody, requestId: bytes): Forgery
    requires w.ledger != [] && Last(w).freshnessEpoch < U64_MAX
  {
    Forgery(Last(w).freshnessEpoch + 1, b.structuralVersion, LocalDigest(p, b), requestId)
  }

  /** The host holds `b`, the next epoch is free and so is the request id. */
  ghost predicate Revivable(w: World, b: KeystoreBody, requestId: bytes) {
    && w.ledger != [] && Last(w).freshnessEpoch < U64_MAX && b in w.emitted && Home(w, b)
    && ValidBody(b) && MarksFit(b) && b.freshnessEpoch <= Last(w).freshnessEpoch
    && |requestId| <= MAX_REQUEST_ID_LEN && !RequestKnown(w, requestId)
  }

  function RevivalState(p: Primitives, w: World, b: KeystoreBody): AnchorState
    requires w.ledger != [] && Last(w).freshnessEpoch < U64_MAX
  {
    AnchorState(Last(w).freshnessEpoch + 1, b.structuralVersion, LocalDigest(p, b), None, None)
  }

  /** The anchor's honest word on its record, for a nonce. */
  function Word(p: Primitives, sign: bytes -> bytes64, b: KeystoreBody, st: AnchorState,
      nonce: bytes32): AnchorResponse {
    HonestResponse(sign, st, BootRequestFor(p, b.config, nonce))
  }

  /** Its honest word answers the question, in form and in substance. */
  lemma {:induction false} WordHolds(p: Primitives, sign: bytes -> bytes64, b: KeystoreBody, c: KeystoreBody,
      st: AnchorState, nonce: bytes32)
    requires ValidBody(b) && SignsFor(p, sign, b.config.anchorRoot) && c.config == b.config
    requires st.chainHeight.None? && st.chainBlockHash.None?
    ensures var r := Word(p, sign, b, st, nonce);
            && LegalResponse(r) && r.version == ANCHOR_RESPONSE_VERSION && r.nonce == nonce && StateOf(r) == st
            && AnchorSigned(p, r, c.config) && InScope(r.chainId, r.environmentIdentifier, c.config)
  {
    hide AnchorPreimage, ValidUtf8, ValidEntries, ValidCounters, ValidAudit;
    EnvironmentIsUtf8(b.config.environmentIdentifier);
    PreimageIgnoresSignature(Word(p, sign, b, st, nonce), seq(64, _ => 0));
  }

  lemma {:induction false} RevivalDescribed(p: Primitives, w: World, b: KeystoreBody, requestId: bytes,
      v: World, r: AnchorResponse)
    requires Revivable(w, b, requestId) && LegalResponse(r)
    requires InScope(r.chainId, r.environmentIdentifier, b.config) && StateOf(r) == RevivalState(p, w, b)
    requires v.ledger == w.ledger + [ForgedEntry(w, RevivalOf(p, w, b, requestId))]
    ensures Describes(p, v, r)
  {
    hide LegalResponse, LocalDigest, ValidBody, MarksFit, RequestKnown;
    assert v.ledger[0] == w.ledger[0] && v.ledger[|w.ledger|] == ForgedEntry(w, RevivalOf(p, w, b, requestId));
  }

  /** The body that comes back: `b` with its own marks, at the new epoch. */
  function Revived(w: World, b: KeystoreBody): KeystoreBody
    requires w.ledger != [] && Last(w).freshnessEpoch < U64_MAX
  {
    Seeded(b, MarksOf(b), Last(w).freshnessEpoch + 1)
  }

  /** It adopts from the forged record. */
  lemma {:induction false} RevivalAdopts(p: Primitives, sign: bytes -> bytes64, w: World, b: KeystoreBody,
      requestId: bytes, nonce: bytes32) returns (reply: bytes)
    requires Revivable(w, b, requestId) && SignsFor(p, sign, b.config.anchorRoot)
    ensures var st, c := RevivalState(p, w, b), Revived(w, b);
            && LocalDecision(p, b, st).AdoptForward? && AdoptVerdict(p, reply, b, st, nonce) == Ok(c)
            && Current(p, c, st) && c.config == b.config && ValidBody(c)
  {
    hide ValidBody, MarksOf, MarksPayload, Seeded, AdoptVerdict, DigestOf, Dominates, RequestKnown, ReplyPayload;
    var st, m := RevivalState(p, w, b), MarksOf(b);
    var q := MarksRequestFor(b.config, nonce, st.epoch);
    reply := Encode(MapV(MarksRespEntries(HonestMarksReply(sign, m, q))));
    hide Encode;
    HonestMarksVerify(p, sign, b, st, m, q);
    ValidBodyHasLegalMarks(b);
    DominanceReflexive(b);
    HonestAdopt(p, reply, b, st, nonce, m);
    SeededKeeps(b, m, st.epoch);
    SeedKeepsValid(b, m, st.epoch);
  }

  ghost predicate FreshNonces(w: World, n0: bytes32, n1: bytes32, n2: bytes32) {
    !NonceUsed(w, n1) && !NonceUsed(w, n2) && n0 != n1 && n0 != n2 && n1 != n2
  }

  /** The signed statements of a revival. */
  ghost function RevivalStatements(p: Primitives, sign: bytes -> bytes64, w: World, b: KeystoreBody, requestId: bytes,
                                   n0: bytes32, n1: bytes32, n2: bytes32, s0: bytes64): set<Preimages.Statement>
    requires Revivable(w, b, requestId)
  {
    var st := RevivalState(p, w, b);
    {AckStatement(p, ForgedEntry(w, RevivalOf(p, w, b, requestId)), n0, s0),
     Preimages.Freshness(Word(p, sign, b, st, n1)), Preimages.Freshness(Word(p, sign, b, st, n2))}
  }

  /** The world once `b` is live again. */
  ghost function RevivedWorld(p: Primitives, sign: bytes -> bytes64, w: World, b: KeystoreBody, requestId: bytes,
                              n0: bytes32, n1: bytes32, n2: bytes32, s0: bytes64): World
    requires Revivable(w, b, requestId)
  {
    w.(ledger := w.ledger + [ForgedEntry(w, RevivalOf(p, w, b, requestId))],
       signed := w.signed + RevivalStatements(p, sign, w, b, requestId, n0, n1, n2, s0),
       live := Some(Revived(w, b)), booting := None, pending := None, seen := w.seen + {MarksOf(Revived(w, b))})
  }

  // ---------------------------------------------------------------- the eight steps

  /** The step may be taken and leads to `v`. */
  ghost predicate Leads(p: Primitives, w: World, s: Step, v: World) {
    w.ledger != [] && Enabled(p, w, s) && After(p, w, s) == v
  }

  lemma {:induction false} Take(p: Primitives, ws: seq<World>, steps: seq<Step>, s: Step, v: World)
    returns (vs: seq<World>, ts: seq<Step>)
    requires Run(p, ws, steps) && Leads(p, ws[|steps|], s, v)
    ensures Run(p, vs, ts) && vs[|ts|] == v
  {
    hide Enabled, After, Initial;
    RunSnoc(p, ws, steps, s);
    vs, ts := ws + [v], steps + [s];
  }

  lemma {:induction false} TakeThree(p: Primitives, ws: seq<World>, steps: seq<Step>, s1: Step, v1: World, s2: Step,
      v2: World, s3: Step, v3: World) returns (vs: seq<World>, ts: seq<Step>)
    requires Run(p, ws, steps) && Leads(p, ws[|steps|], s1, v1) && Leads(p, v1, s2, v2) && Leads(p, v2, s3, v3)
    ensures Run(p, vs, ts) && vs[|ts|] == v3
  {
    hide Leads, Initial, Enabled, After;
    vs, ts := Take(p, ws, steps, s1, v1);
    vs, ts := Take(p, vs, ts, s2, v2);
    vs, ts := Take(p, vs, ts, s3, v3);
  }

  lemma {:induction false} ForgeStep(p: Primitives, w: World, b: KeystoreBody, requestId: bytes, n0: bytes32,
      s0: bytes64)
    requires Revivable(w, b, requestId)
    ensures var e := ForgedEntry(w, RevivalOf(p, w, b, requestId));
            Leads(p, w, RecordForged(RevivalOf(p, w, b, requestId), n0, s0),
                  Signed(w.(ledger := w.ledger + [e]), AckStatement(p, e, n0, s0)))
  {
    hide ValidBody, MarksFit, LocalDigest, AckFor;
    NotYetRecorded(p, w, ForgedEntry(w, RevivalOf(p, w, b, requestId)));
  }

  lemma {:induction false} NotYetRecorded(p: Primitives, w: World, e: Entry)
    requires !RequestKnown(w, e.requestId)
    ensures !AlreadyRecorded(p, w, e)
  {
    hide RecordDigest;
  }

  lemma {:induction false} StartStep(p: Primitives, w: World, b: KeystoreBody)
    requires w.ledger != [] && b in w.emitted
    ensures Leads(p, w, BootStart(b), BootingWith(w, b, None))
  {
  }

  lemma {:induction false} DrawStep(p: Primitives, w: World, nonce: bytes32)
    requires w.ledger != [] && w.booting.Some? && !NonceUsed(w, nonce)
    ensures Leads(p, w, BootDraw(nonce), BootingWith(w, w.booting.value.body, Some(nonce)))
  {
    hide NonceUsed;
  }

  lemma {:induction false} SignStep(p: Primitives, w: World, r: AnchorResponse)
    requires w.ledger != [] && Describes(p, w, r)
    ensures Leads(p, w, SignFreshness(r), Signed(w, Preimages.Freshness(r)))
  {
    hide Describes;
  }

  lemma {:induction false} AdoptStepLeads(p: Primitives, w: World, response: bytes, reply: bytes, c: KeystoreBody)
    requires w.ledger != [] && CanAdopt(p, w, response, reply) && AdoptedBody(p, w, response, reply) == Ok(c)
    ensures Leads(p, w, BootAdopt(response, reply), BootingWith(w, c, None).(seen := w.seen + {MarksOf(c)}))
  {
    hide LocalDecision, BootVerified, AdoptedBody, MarksOf;
  }

  lemma {:induction false} ReadyStepLeads(p: Primitives, w: World, response: bytes)
    requires w.ledger != [] && CanReady(p, w, response)
    ensures Leads(p, w, BootReady(response), w.(live := Some(w.booting.value.body), booting := None, pending := None))
  {
    hide LocalDecision, BootVerified;
  }

  /** The anchor signs, and the process adopts. */
  lemma {:induction false} AdoptSteps(p: Primitives, w: World, r: AnchorResponse, reply: bytes, c: KeystoreBody)
    requires w.ledger != [] && Challenging(w) && Describes(p, w, r) && Home(w, w.booting.value.body)
    requires r.version == ANCHOR_RESPONSE_VERSION && r.nonce == w.booting.value.nonce.value
    requires AnchorSigned(p, r, w.booting.value.body.config)
    requires LocalDecision(p, w.booting.value.body, StateOf(r)).AdoptForward?
    requires AdoptVerdict(p, reply, w.booting.value.body, StateOf(r), r.nonce) == Ok(c)
    ensures var v := Signed(w, Preimages.Freshness(r));
            && Leads(p, w, SignFreshness(r), v)
            && Leads(p, v, BootAdopt(Encode(MapV(WireEntries(r))), reply),
                     BootingWith(v, c, None).(seen := v.seen + {MarksOf(c)}))
  {
    hide Describes, AnchorSigned, LocalDecision, AdoptVerdict, CanAdopt, AdoptedBody, Encode, WireEntries, MarksOf,
        Leads;
    SignStep(p, w, r);
    HonestAdoptCompletes(p, w, r, reply);
    AdoptStepLeads(p, Signed(w, Preimages.Freshness(r)), Encode(MapV(WireEntries(r))), reply, c);
  }

  /** The anchor signs, and the process is ready. */
  lemma {:induction false} ReadySteps(p: Primitives, w: World, r: AnchorResponse)
    requires w.ledger != [] && Challenging(w) && Describes(p, w, r) && Home(w, w.booting.value.body)
    requires r.version == ANCHOR_RESPONSE_VERSION && r.nonce == w.booting.value.nonce.value
    requires AnchorSigned(p, r, w.booting.value.body.config) && Current(p, w.booting.value.body, StateOf(r))
    ensures var v := Signed(w, Preimages.Freshness(r));
            && Leads(p, w, SignFreshness(r), v)
            && Leads(p, v, BootReady(Encode(MapV(WireEntries(r)))),
                     v.(live := Some(w.booting.value.body), booting := None, pending := None))
  {
    hide Describes, AnchorSigned, Current, CanReady, Encode, WireEntries, Leads;
    SignStep(p, w, r);
    HonestBootCompletes(p, w, r);
    ReadyStepLeads(p, Signed(w, Preimages.Freshness(r)), Encode(MapV(WireEntries(r))));
  }

  lemma {:induction false} OtherNonce(p: Primitives, w: World, e: Entry, n0: bytes32, n1: bytes32, s0: bytes64)
    requires !NonceUsed(w, n1) && n0 != n1
    ensures !NonceUsed(Signed(w, AckStatement(p, e, n0, s0)), n1)
  {
    hide RecordDigest;
  }

  lemma {:induction false} StillHome(w: World, v: World, b: KeystoreBody)
    requires w.ledger != [] && w.ledger <= v.ledger && Home(w, b)
    ensures Home(v, b)
  {
    assert v.ledger[0] == w.ledger[0];
  }

  lemma {:induction false} SecondNonce(p: Primitives, w: World, v: World, f: Forgery, r: AnchorResponse, n0: bytes32,
      n1: bytes32, n2: bytes32, s0: bytes64)
    requires w.ledger != [] && FreshNonces(w, n0, n1, n2) && r.nonce == n1
    requires v.signed == w.signed + {AckStatement(p, ForgedEntry(w, f), n0, s0)} + {Preimages.Freshness(r)}
    ensures !NonceUsed(v, n2)
  {
    hide RecordDigest;
  }

  /** The forged record, and the boot of `b` up to its first challenge. */
  lemma {:induction false} RevivalBegins(p: Primitives, ws: seq<World>, steps: seq<Step>, b: KeystoreBody,
      requestId: bytes, n0: bytes32, n1: bytes32, s0: bytes64) returns (vs: seq<World>, ts: seq<Step>)
    requires Run(p, ws, steps) && Revivable(ws[|steps|], b, requestId)
    requires !NonceUsed(ws[|steps|], n1) && n0 != n1
    ensures Run(p, vs, ts)
    ensures var w := ws[|steps|];
            var e := ForgedEntry(w, RevivalOf(p, w, b, requestId));
            vs[|ts|] == BootingWith(Signed(w.(ledger := w.ledger + [e]), AckStatement(p, e, n0, s0)), b, Some(n1))
  {
    var w := ws[|steps|];
    var f := RevivalOf(p, w, b, requestId);
    var e := ForgedEntry(w, f);
    var w1 := Signed(w.(ledger := w.ledger + [e]), AckStatement(p, e, n0, s0));
    var w2 := BootingWith(w1, b, None);
    ForgeStep(p, w, b, requestId, n0, s0);
    StartStep(p, w1, b);
    OtherNonce(p, w, e, n0, n1, s0);
    DrawStep(p, w2, n1);
    hide Run, ValidBody, MarksFit, LocalDigest, AckStatement, NonceUsed, RequestKnown, Leads;
    vs, ts := Take(p, ws, steps, RecordForged(f, n0, s0), w1);
    vs, ts := Take(p, vs, ts, BootStart(b), w2);
    vs, ts := Take(p, vs, ts, BootDraw(n1), BootingWith(w2, b, Some(n1)));
  }

  /** The adopt from the forged record. */
  lemma {:induction false} RevivalGoesOn(p: Primitives, sign: bytes -> bytes64, ws: seq<World>, steps: seq<Step>,
      w: World, b: KeystoreBody, requestId: bytes, n1: bytes32)
    returns (vs: seq<World>, ts: seq<Step>)
    requires Run(p, ws, steps) && Revivable(w, b, requestId) && SignsFor(p, sign, b.config.anchorRoot)
    requires var v := ws[|steps|];
             && v.ledger == w.ledger + [ForgedEntry(w, RevivalOf(p, w, b, requestId))]
             && v.booting == Some(Ceremony(b, Some(n1))) && v.live == None && v.pending == None
    ensures Run(p, vs, ts)
    ensures var v, c := ws[|steps|], Revived(w, b);
            vs[|ts|] == Signed(v, Preimages.Freshness(Word(p, sign, b, RevivalState(p, w, b), n1)))
                        .(booting := Some(Ceremony(c, None)), seen := v.seen + {MarksOf(c)})
  {
    var v, st, c := ws[|steps|], RevivalState(p, w, b), Revived(w, b);
    var r := Word(p, sign, b, st, n1);
    var reply := RevivalAdopts(p, sign, w, b, requestId, n1);
    WordHolds(p, sign, b, b, st, n1);
    RevivalDescribed(p, w, b, requestId, v, r);
    StillHome(w, v, b);
    hide Run, SignsFor, ValidBody, MarksFit, LocalDigest, MarksOf, Seeded, AdoptVerdict, LocalDecision, Current,
        LegalResponse, AnchorSigned, Word, Encode, WireEntries, RequestKnown, Describes, Leads;
    AdoptSteps(p, v, r, reply, c);
    var v1 := Signed(v, Preimages.Freshness(r));
    vs, ts := Take(p, ws, steps, SignFreshness(r), v1);
    vs, ts := Take(p, vs, ts, BootAdopt(Encode(MapV(WireEntries(r))), reply),
                   BootingWith(v1, c, None).(seen := v1.seen + {MarksOf(c)}));
  }

  /** The second challenge finds the adopted body current. */
  lemma {:induction false} RevivalEnds(p: Primitives, sign: bytes -> bytes64, ws: seq<World>, steps: seq<Step>,
      w: World, b: KeystoreBody, requestId: bytes, n2: bytes32)
    returns (vs: seq<World>, ts: seq<Step>)
    requires Run(p, ws, steps) && Revivable(w, b, requestId) && SignsFor(p, sign, b.config.anchorRoot)
    requires var v, c := ws[|steps|], Revived(w, b);
             && v.ledger == w.ledger + [ForgedEntry(w, RevivalOf(p, w, b, requestId))]
             && v.booting == Some(Ceremony(c, None)) && v.live == None && v.pending == None && !NonceUsed(v, n2)
    ensures Run(p, vs, ts)
    ensures var v, c := ws[|steps|], Revived(w, b);
            vs[|ts|] == Signed(v, Preimages.Freshness(Word(p, sign, b, RevivalState(p, w, b), n2)))
                        .(booting := None, live := Some(c))
  {
    assert |ws| == |steps| + 1;
    hide Run, SignsFor, ValidBody, MarksFit, LocalDigest, MarksOf, Seeded, AdoptVerdict, LocalDecision, LegalResponse,
        AnchorSigned, Word, Encode, WireEntries, RequestKnown, Describes, Leads, NonceUsed;
    var v, st, c := ws[|steps|], RevivalState(p, w, b), Revived(w, b);
    var r := Word(p, sign, b, st, n2);
    var v1 := BootingWith(v, c, Some(n2));
    var reply := RevivalAdopts(p, sign, w, b, requestId, n2);
    WordHolds(p, sign, b, c, st, n2);
    RevivalDescribed(p, w, b, requestId, v1, r);
    StillHome(w, v1, c);
    DrawStep(p, v, n2);
    hide Revivable, Current;
    ReadySteps(p, v1, r);
    var v2 := Signed(v1, Preimages.Freshness(r));
    vs, ts := TakeThree(p, ws, steps, BootDraw(n2), v1, SignFreshness(r), v2,
                        BootReady(Encode(MapV(WireEntries(r)))),
                        v2.(live := Some(c), booting := None, pending := None));
  }

  /** Before and after the adopt. */
  ghost function Begun(p: Primitives, w: World, b: KeystoreBody, requestId: bytes, n0: bytes32, n1: bytes32,
                       s0: bytes64): World
    requires Revivable(w, b, requestId)
  {
    var e := ForgedEntry(w, RevivalOf(p, w, b, requestId));
    BootingWith(Signed(w.(ledger := w.ledger + [e]), AckStatement(p, e, n0, s0)), b, Some(n1))
  }

  ghost function GoneOn(p: Primitives, sign: bytes -> bytes64, w: World, b: KeystoreBody, requestId: bytes, n0: bytes32,
                        n1: bytes32, s0: bytes64): World
    requires Revivable(w, b, requestId)
  {
    var v := Begun(p, w, b, requestId, n0, n1, s0);
    Signed(v, Preimages.Freshness(Word(p, sign, b, RevivalState(p, w, b), n1)))
    .(booting := Some(Ceremony(Revived(w, b), None)), seen := v.seen + {MarksOf(Revived(w, b))})
  }

  lemma {:induction false} BegunShape(p: Primitives, w: World, b: KeystoreBody, requestId: bytes, n0: bytes32,
      n1: bytes32, s0: bytes64)
    requires Revivable(w, b, requestId)
    ensures var v := Begun(p, w, b, requestId, n0, n1, s0);
            && v.ledger == w.ledger + [ForgedEntry(w, RevivalOf(p, w, b, requestId))]
            && v.booting == Some(Ceremony(b, Some(n1))) && v.live == None && v.pending == None
  {
    hide Revivable, RevivalOf, ForgedEntry, AckStatement;
  }

  lemma {:induction false} GoneOnShape(p: Primitives, sign: bytes -> bytes64, w: World, b: KeystoreBody,
      requestId: bytes, n0: bytes32, n1: bytes32, n2: bytes32, s0: bytes64)
    requires Revivable(w, b, requestId) && FreshNonces(w, n0, n1, n2)
    ensures var v := GoneOn(p, sign, w, b, requestId, n0, n1, s0);
            && v.ledger == w.ledger + [ForgedEntry(w, RevivalOf(p, w, b, requestId))]
            && v.booting == Some(Ceremony(Revived(w, b), None)) && v.live == None && v.pending == None
            && !NonceUsed(v, n2)
            && Signed(v, Preimages.Freshness(Word(p, sign, b, RevivalState(p, w, b), n2)))
               .(booting := None, live := Some(Revived(w, b)))
               == RevivedWorld(p, sign, w, b, requestId, n0, n1, n2, s0)
  {
    var v := GoneOn(p, sign, w, b, requestId, n0, n1, s0);
    BegunShape(p, w, b, requestId, n0, n1, s0);
    SecondNonce(p, w, v, RevivalOf(p, w, b, requestId), Word(p, sign, b, RevivalState(p, w, b), n1), n0, n1, n2, s0);
    hide NonceUsed, FreshNonces, Word, RevivalOf, RevivalState, ForgedEntry, AckStatement, Seeded, MarksOf, Revivable;
  }

  /**
    Any body the host was ever handed comes back to life, whatever the anchor recorded since: one
    made-up request with that body's own version and digest, one boot, one adopt, and it is live with
    its own marks.
   */
  lemma {:induction false} Revive(p: Primitives, sign: bytes -> bytes64, ws: seq<World>, steps: seq<Step>,
      b: KeystoreBody, requestId: bytes, n0: bytes32, n1: bytes32, n2: bytes32, s0: bytes64)
    returns (vs: seq<World>, ts: seq<Step>)
    requires Run(p, ws, steps) && Revivable(ws[|steps|], b, requestId) && FreshNonces(ws[|steps|], n0, n1, n2)
    requires SignsFor(p, sign, b.config.anchorRoot)
    ensures Run(p, vs, ts)
    ensures vs[|ts|] == RevivedWorld(p, sign, ws[|steps|], b, requestId, n0, n1, n2, s0)
  {
    var w := ws[|steps|];
    BegunShape(p, w, b, requestId, n0, n1, s0);
    GoneOnShape(p, sign, w, b, requestId, n0, n1, n2, s0);
    vs, ts := RevivalBegins(p, ws, steps, b, requestId, n0, n1, s0);
    assert vs[|ts|] == Begun(p, w, b, requestId, n0, n1, s0);
    hide Begun, Run, Revivable, SignsFor, FreshNonces, NonceUsed, RevivedWorld;
    vs, ts := RevivalGoesOn(p, sign, vs, ts, w, b, requestId, n1);
    assert vs[|ts|] == GoneOn(p, sign, w, b, requestId, n0, n1, s0);
    hide GoneOn;
    vs, ts := RevivalEnds(p, sign, vs, ts, w, b, requestId, n2);
  }

  // ---------------------------------------------------------------- what that does to spends

  lemma {:induction false} RevivedCarries(w: World, b: KeystoreBody)
    requires w.ledger != [] && Last(w).freshnessEpoch < U64_MAX && ValidBody(b)
    ensures var c := Revived(w, b);
            && ValidBody(c) && MarksOf(c) == MarksOf(b) && c.config == b.config
            && c.structuralVersion == b.structuralVersion
            && c.faucet.cumulativeNativeSpend == b.faucet.cumulativeNativeSpend
            && c.faucet.lifetimeSpend == b.faucet.lifetimeSpend
  {
    hide ValidBody, SortRows, RowsAscend;
    ValidBodyHasLegalMarks(b);
    SeedThenRead(b, MarksOf(b), Last(w).freshnessEpoch + 1);
    SeedKeepsValid(b, MarksOf(b), Last(w).freshnessEpoch + 1);
    SeededKeeps(b, MarksOf(b), Last(w).freshnessEpoch + 1);
  }

  /** A dispense from the genesis body, recorded, acknowledged and live. */
  lemma {:induction false} DispenseRun(p: Primitives, sign: bytes -> bytes64, b: KeystoreBody, c: KeystoreBody,
      requestId: bytes, n1: bytes32, n2: bytes32, s1: bytes64, s2: bytes64) returns (ws: seq<World>, steps: seq<Step>)
    requires ValidBody(b) && MarksFit(b) && n1 != n2 && requestId != []
    requires CanDispense(Genesis(b).(live := Some(b)), requestId, c)
    requires AnchorSigned(p, StatementOf(p, b, n1, s1), b.config)
    requires (p.verify)(c.config.anchorRoot, CommitAckPreimage(AckFor(p, Entry(c, requestId), n2, s2)), s2)
    ensures Run(p, ws, steps)
    ensures ws[|steps|].ledger == [Entry(b, []), Entry(c, requestId)] && ws[|steps|].emitted == {b, c}
    ensures ws[|steps|].live == Some(c)
    ensures ws[|steps|].signed == {Preimages.Freshness(StatementOf(p, b, n1, s1)),
                                   AckStatement(p, Entry(c, requestId), n2, s2)}
  {
    hide ValidBody, MarksFit, MarksOf, LocalDigest, DigestOf, CommitAckPreimage, Encode, AckFor, CommitAckEntries,
        AnchorSigned;
    ws, steps := GenesisBoots(p, b, n1, s1);
    hide Run;
    var w := ws[|steps|];
    var e := Entry(c, requestId);
    RunSnoc(p, ws, steps, Dispense(requestId, c, n2));
    ws, steps := ws + [Proposed(w, e, n2, None)], steps + [Dispense(requestId, c, n2)];
    assert Appends(ws[|steps|], e);
    ws, steps := PendingCompletes(p, ws, steps, s2);
  }

  lemma {:induction false} NoncesApart(p: Primitives, w: World, r: AnchorResponse, e: Entry, n1: bytes32, n2: bytes32,
      s2: bytes64, m: bytes32)
    requires w.signed == {Preimages.Freshness(r), AckStatement(p, e, n2, s2)} && r.nonce == n1 && m != n1 && m != n2
    ensures !NonceUsed(w, m)
  {
    hide RecordDigest;
  }

  /**
    Spends roll back, though no version falls: after a dispense that was recorded, acknowledged and
    handed out, one made-up request brings the body before it back to life, with the totals of then.
   */
  lemma {:induction false} SpendsRollBack(p: Primitives, sign: bytes -> bytes64, b: KeystoreBody, c: KeystoreBody,
      rids: (bytes, bytes), n: seq<bytes32>, s0: bytes64, s1: bytes64, s2: bytes64)
    returns (ws: seq<World>, steps: seq<Step>)
    requires ValidBody(b) && MarksFit(b) && b.freshnessEpoch < U64_MAX - 1
    requires |n| == 5 && forall i, j | 0 <= i < j < 5 :: n[i] != n[j]
    requires rids.0 != [] && rids.1 != [] && rids.0 != rids.1 && |rids.1| <= MAX_REQUEST_ID_LEN
    requires CanDispense(Genesis(b).(live := Some(b)), rids.0, c)
    requires FromBE(b.faucet.cumulativeNativeSpend) < FromBE(c.faucet.cumulativeNativeSpend)
    requires SignsFor(p, sign, b.config.anchorRoot)
    requires AnchorSigned(p, StatementOf(p, b, n[0], s1), b.config)
    requires (p.verify)(c.config.anchorRoot, CommitAckPreimage(AckFor(p, Entry(c, rids.0), n[1], s2)), s2)
    ensures Run(p, ws, steps) && VersionsRise(ws[|steps|]) && ws[|steps|].live.Some?
    ensures Entry(c, rids.0) in ws[|steps|].ledger && c in ws[|steps|].emitted
    ensures FromBE(ws[|steps|].live.value.faucet.cumulativeNativeSpend) < FromBE(c.faucet.cumulativeNativeSpend)
  {
    hide Enabled, After, ValidBody, MarksFit, LocalDigest, AckFor, SignsFor, FromBE, AnchorSigned, StatementOf, Seeded,
        MarksOf, CommitAckPreimage, Initial, Revivable, NonceUsed, VersionsRise, Genesis, RevivalStatements;
    DispenseSteps(b, rids.0, c);
    hide CanDispense;
    ws, steps := DispenseRun(p, sign, b, c, rids.0, n[0], n[1], s1, s2);
    var w := ws[|steps|];
    StatementNonce(p, b, n[0], s1);
    NoncesApart(p, w, StatementOf(p, b, n[0], s1), Entry(c, rids.0), n[0], n[1], s2, n[3]);
    NoncesApart(p, w, StatementOf(p, b, n[0], s1), Entry(c, rids.0), n[0], n[1], s2, n[4]);
    GenesisRevivable(w, b, c, rids.0, rids.1, rids.1);
    RevivedCarries(w, b);
    RevivalRises(p, w, b, c, rids.1);
    hide AckStatement, Revived;
    ws, steps := Revive(p, sign, ws, steps, b, rids.1, n[2], n[3], n[4], s0);
  }

  lemma {:induction false} DispenseSteps(b: KeystoreBody, requestId: bytes, c: KeystoreBody)
    requires CanDispense(Genesis(b).(live := Some(b)), requestId, c)
    ensures c.freshnessEpoch == b.freshnessEpoch + 1 && c.structuralVersion == b.structuralVersion
  {
    hide ValidBody, MarksFit, MarksOf;
  }

  lemma {:induction false} StatementNonce(p: Primitives, b: KeystoreBody, nonce: bytes32, s: bytes64)
    ensures StatementOf(p, b, nonce, s).nonce == nonce
  {
    hide LocalDigest;
  }

  lemma {:induction false} RevivalRises(p: Primitives, w: World, b: KeystoreBody, c: KeystoreBody, requestId: bytes)
    requires Revivable(w, b, requestId) && |w.ledger| == 2 && w.ledger[0].body == b && w.ledger[1].body == c
    requires b.structuralVersion == c.structuralVersion
    ensures forall v: World | v.ledger == w.ledger + [ForgedEntry(w, RevivalOf(p, w, b, requestId))] :: VersionsRise(v)
  {
    hide ValidBody, MarksFit, LocalDigest;
  }

  // ---------------------------------------------------------------- what a falling version does to counters

  /** A revived body accepts what the body accepted. */
  lemma {:induction false} RevivedAccepts(p: Primitives, w: World, b: KeystoreBody, cap: Capability, opcode: u8)
    requires w.ledger != [] && Last(w).freshnessEpoch < U64_MAX && ValidBody(b) && Accepts(p, b, cap, opcode)
    ensures Accepts(p, Revived(w, b), cap, opcode)
  {
    hide ValidBody, MarksOf, LegalCapability, CapPreimage, Highest, Seeded;
    RevivedCarries(w, b);
    MarksDecideLanes(b, Revived(w, b), CapLane(cap, b.config));
  }

  /** Six nonces, no two alike. */
  predicate SixNonces(n: seq<bytes32>) {
    |n| == 6 && forall i, j | 0 <= i < j < 6 :: n[i] != n[j]
  }

  lemma {:induction false} FirstAcceptance(p: Primitives, b: KeystoreBody, c: KeystoreBody, cap: Capability, opcode: u8,
      requestId: bytes, next: bytes, n: seq<bytes32>, s0: bytes64, s1: bytes64)
    returns (ws: seq<World>, steps: seq<Step>)
    requires ValidBody(b) && MarksFit(b) && MarksFit(c) && b.freshnessEpoch < U64_MAX - 1
    requires SixNonces(n)
    requires cap.requestId != [] && next != [] && requestId != [] && |requestId| <= MAX_REQUEST_ID_LEN
    requires cap.requestId != next && requestId != cap.requestId
    requires Accepts(p, b, cap, opcode) && OperationCandidate(b, CapLane(cap, b.config), cap.counter, c)
    requires DigestOf(p, MarksOf(c)) == DigestOf(p, MarksOf(b)) ==> MarksOf(c) == MarksOf(b)
    requires AnchorSigned(p, StatementOf(p, b, n[0], s0), b.config)
    requires (p.verify)(c.config.anchorRoot, CommitAckPreimage(AckFor(p, Entry(c, cap.requestId), n[1], s1)), s1)
    ensures Run(p, ws, steps)
    ensures var w := ws[|steps|];
            && Revivable(w, b, requestId) && FreshNonces(w, n[2], n[3], n[4]) && !NonceUsed(w, n[5])
            && w.accepted == [Acceptance(cap, CapLane(cap, b.config), c.freshnessEpoch)]
            && !RequestKnown(w, next) && Last(w).freshnessEpoch == b.freshnessEpoch + 1
  {
    NoncesDiffer(n);
    hide SixNonces;
    ws, steps := SomeRunAccepts(p, b, cap, opcode, c, n[0], n[1], s0, s1);
    var w := ws[|steps|];
    hide Run, ValidBody, MarksFit, LocalDigest, DigestOf, AckFor, AnchorSigned, StatementOf, MarksOf, Accepts,
        OperationCandidate, CommitAckPreimage, CapLane, CollisionFree;
    StatementNonce(p, b, n[0], s0);
    OperationEpoch(b, CapLane(cap, b.config), cap.counter, c);
    FirstNonces(p, w, StatementOf(p, b, n[0], s0), Entry(c, cap.requestId), n, s1);
    hide NonceUsed, AckStatement, FreshNonces;
    GenesisRevivable(w, b, c, cap.requestId, requestId, next);
  }

  lemma {:induction false} NoncesDiffer(n: seq<bytes32>)
    requires SixNonces(n)
    ensures |n| == 6 && n[0] != n[1]
  {
  }

  lemma {:induction false} FirstNonces(p: Primitives, w: World, r: AnchorResponse, e: Entry, n: seq<bytes32>,
      s1: bytes64)
    requires SixNonces(n) && r.nonce == n[0]
    requires w.signed == {Preimages.Freshness(r), AckStatement(p, e, n[1], s1)}
    ensures FreshNonces(w, n[2], n[3], n[4]) && !NonceUsed(w, n[5])
  {
    NoncesApart(p, w, r, e, n[0], n[1], s1, n[3]);
    NoncesApart(p, w, r, e, n[0], n[1], s1, n[4]);
    NoncesApart(p, w, r, e, n[0], n[1], s1, n[5]);
    hide NonceUsed, AckStatement;
  }

  lemma {:induction false} GenesisRevivable(w: World, b: KeystoreBody, c: KeystoreBody, first: bytes, requestId: bytes,
      next: bytes)
    requires w.ledger == [Entry(b, []), Entry(c, first)] && b in w.emitted && ValidBody(b) && MarksFit(b)
    requires c.freshnessEpoch == b.freshnessEpoch + 1 < U64_MAX
    requires requestId != [] && |requestId| <= MAX_REQUEST_ID_LEN && requestId != first && next != [] && next != first
    ensures Revivable(w, b, requestId) && !RequestKnown(w, next) && Last(w).freshnessEpoch == b.freshnessEpoch + 1
  {
    hide ValidBody, MarksFit;
  }

  /**
    A keystore `b`, two capabilities it accepts with one counter of one lane, the candidate of the first
    and that of the second once `b` has come back, and the nonces and signatures of the traffic.
   */
  datatype Replayed = Replayed(
    b: KeystoreBody,
    c: KeystoreBody,
    d: KeystoreBody,
    first: Capability,
    second: Capability,
    opcode: u8,
    requestId: bytes,
    n: seq<bytes32>,
    s0: bytes64,
    s1: bytes64,
    s2: bytes64,
    s3: bytes64)

  /** The first capability can be accepted, and the host has a request id left. */
  ghost predicate FirstTime(p: Primitives, x: Replayed) {
    && ValidBody(x.b) && MarksFit(x.b) && MarksFit(x.c) && x.b.freshnessEpoch < U64_MAX - 1 && SixNonces(x.n)
    && x.first.requestId != [] && x.second.requestId != [] && x.first.requestId != x.second.requestId
    && x.requestId != [] && |x.requestId| <= MAX_REQUEST_ID_LEN && x.requestId != x.first.requestId
    && Accepts(p, x.b, x.first, x.opcode)
    && OperationCandidate(x.b, CapLane(x.first, x.b.config), x.first.counter, x.c)
    && (DigestOf(p, MarksOf(x.c)) == DigestOf(p, MarksOf(x.b)) ==> MarksOf(x.c) == MarksOf(x.b))
    && AnchorSigned(p, StatementOf(p, x.b, x.n[0], x.s0), x.b.config)
    && (p.verify)(x.c.config.anchorRoot, CommitAckPreimage(AckFor(p, Entry(x.c, x.first.requestId), x.n[1], x.s1)),
        x.s1)
  }

  /** The second can be accepted by the body that comes back. */
  ghost predicate SecondTime(p: Primitives, sign: bytes -> bytes64, x: Replayed) {
    && SixNonces(x.n) && SignsFor(p, sign, x.b.config.anchorRoot) && MarksFit(x.d) && x.b.freshnessEpoch < U64_MAX - 1
    && Accepts(p, x.b, x.second, x.opcode) && x.second.requestId != x.requestId
    && OperationCandidate(Seeded(x.b, MarksOf(x.b), x.b.freshnessEpoch + 2), CapLane(x.second, x.b.config),
                          x.second.counter, x.d)
    && (p.verify)(x.d.config.anchorRoot, CommitAckPreimage(AckFor(p, Entry(x.d, x.second.requestId), x.n[5], x.s3)),
        x.s3)
  }

  /** After the first acceptance, with everything still to be had. */
  ghost predicate Between(w: World, x: Replayed) {
    && |x.n| == 6 && Revivable(w, x.b, x.requestId) && FreshNonces(w, x.n[2], x.n[3], x.n[4]) && !NonceUsed(w, x.n[5])
    && w.accepted == [Acceptance(x.first, CapLane(x.first, x.b.config), x.c.freshnessEpoch)]
    && !RequestKnown(w, x.second.requestId) && Last(w).freshnessEpoch == x.b.freshnessEpoch + 1
  }

  lemma {:induction false} ReplayFirst(p: Primitives, x: Replayed) returns (ws: seq<World>, steps: seq<Step>)
    requires FirstTime(p, x)
    ensures Run(p, ws, steps) && Between(ws[|steps|], x)
  {
    hide ValidBody, MarksFit, Accepts, OperationCandidate, DigestOf, AnchorSigned, CommitAckPreimage, AckFor, MarksOf,
        StatementOf, SixNonces, Revivable, FreshNonces, NonceUsed, RequestKnown, CapLane;
    NoncesDiffer(x.n);
    ws, steps := FirstAcceptance(p, x.b, x.c, x.first, x.opcode, x.requestId, x.second.requestId, x.n, x.s0, x.s1);
  }

  lemma {:induction false} ReplaySecond(p: Primitives, sign: bytes -> bytes64, x: Replayed, us: seq<World>,
      ss: seq<Step>) returns (vs: seq<World>, ts: seq<Step>)
    requires Run(p, us, ss) && Between(us[|ss|], x) && SecondTime(p, sign, x)
    ensures Run(p, vs, ts)
    ensures vs[|ts|].accepted == [Acceptance(x.first, CapLane(x.first, x.b.config), x.c.freshnessEpoch),
                                  Acceptance(x.second, CapLane(x.second, x.b.config), x.d.freshnessEpoch)]
  {
    hide Run, MarksFit, Accepts, OperationCandidate, CommitAckPreimage, AckFor, MarksOf, SignsFor, Seeded, SixNonces,
        Revivable, FreshNonces, NonceUsed, RequestKnown, CapLane;
    vs, ts := RepeatAcceptance(p, sign, us, ss, x.b, x.d, x.second, x.opcode, x.requestId, x.n, x.s2, x.s3);
  }

  /**
    Once a made-up request may lower the version, counters repeat: one capability is accepted, the body
    before it comes back to life, and another capability with the same counter of the same lane is
    accepted too. The first one is not: its request id is on record.
   */
  lemma {:induction false} CounterRepeats(p: Primitives, sign: bytes -> bytes64, x: Replayed)
    returns (ws: seq<World>, steps: seq<Step>)
    requires FirstTime(p, x) && SecondTime(p, sign, x)
    requires CapLane(x.first, x.b.config) == CapLane(x.second, x.b.config)
    ensures Run(p, ws, steps) && !VersionsRise(ws[|steps|])
    ensures var done := ws[|steps|].accepted;
            && |done| == 2 && done[0].cap == x.first && done[1].cap == x.second
            && done[0].lane == done[1].lane && x.first.counter == x.second.counter
  {
    SameCounter(p, x.b, x.first, x.second, x.opcode);
    hide FirstTime, SecondTime, Between, CapLane, VersionsRise;
    ws, steps := ReplayFirst(p, x);
    ws, steps := ReplaySecond(p, sign, x, ws, steps);
    if VersionsRise(ws[|steps|]) {
      NoCapabilityTwice(p, ws, steps, 0, 1);
    }
  }

  lemma {:induction false} SameCounter(p: Primitives, b: KeystoreBody, x: Capability, y: Capability, opcode: u8)
    requires Accepts(p, b, x, opcode) && Accepts(p, b, y, opcode) && CapLane(x, b.config) == CapLane(y, b.config)
    ensures x.counter == y.counter
  {
    hide Accepts, LaneHigh, CapLane;
    VerifiedCounter(p, x, opcode, b);
    VerifiedCounter(p, y, opcode, b);
  }

  lemma {:induction false} RepeatAcceptance(p: Primitives, sign: bytes -> bytes64, us: seq<World>, ss: seq<Step>,
      b: KeystoreBody, d: KeystoreBody, cap: Capability, opcode: u8, requestId: bytes, n: seq<bytes32>, s0: bytes64,
      s1: bytes64) returns (vs: seq<World>, ts: seq<Step>)
    requires Run(p, us, ss) && SixNonces(n) && SignsFor(p, sign, b.config.anchorRoot)
    requires var w := us[|ss|];
             && Revivable(w, b, requestId) && FreshNonces(w, n[2], n[3], n[4]) && !NonceUsed(w, n[5])
             && !RequestKnown(w, cap.requestId) && Last(w).freshnessEpoch == b.freshnessEpoch + 1
    requires Accepts(p, b, cap, opcode) && MarksFit(d) && cap.requestId != requestId
    requires b.freshnessEpoch < U64_MAX - 1
    requires OperationCandidate(Seeded(b, MarksOf(b), b.freshnessEpoch + 2), CapLane(cap, b.config), cap.counter, d)
    requires (p.verify)(d.config.anchorRoot, CommitAckPreimage(AckFor(p, Entry(d, cap.requestId), n[5], s1)), s1)
    ensures Run(p, vs, ts)
    ensures vs[|ts|].accepted == us[|ss|].accepted + [Acceptance(cap, CapLane(cap, b.config), d.freshnessEpoch)]
  {
    var w := us[|ss|];
    RevivedAt(w, b, requestId);
    hide RevivedWorld, SixNonces, Run, FreshNonces, SignsFor, Accepts, OperationCandidate, CommitAckPreimage, CapLane,
        NonceUsed, RequestKnown, AckFor, Seeded, MarksOf, LaneHigh, ValidBody, MarksFit, Revivable;
    RevivedAccepts(p, w, b, cap, opcode);
    hide Revived;
    vs, ts := Revive(p, sign, us, ss, b, requestId, n[2], n[3], n[4], s0);
    vs, ts := OperateRevived(p, sign, vs, ts, w, b, cap, opcode, d, requestId, n, s0, s1);
  }

  lemma {:induction false} RevivedAt(w: World, b: KeystoreBody, requestId: bytes)
    requires Revivable(w, b, requestId) && Last(w).freshnessEpoch == b.freshnessEpoch + 1 < U64_MAX
    ensures Revived(w, b) == Seeded(b, MarksOf(b), b.freshnessEpoch + 2) && ValidBody(b)
  {
    hide Seeded, ValidBody, MarksOf;
  }

  /** The revived body takes one more operation. */
  lemma {:induction false} OperateRevived(p: Primitives, sign: bytes -> bytes64, us: seq<World>, ss: seq<Step>,
      w: World,
      b: KeystoreBody, cap: Capability, opcode: u8, d: KeystoreBody, requestId: bytes, n: seq<bytes32>, s0: bytes64,
      s1: bytes64) returns (vs: seq<World>, ts: seq<Step>)
    requires SixNonces(n)
    requires Run(p, us, ss) && Revivable(w, b, requestId) && !NonceUsed(w, n[5])
    requires us[|ss|] == RevivedWorld(p, sign, w, b, requestId, n[2], n[3], n[4], s0)
    requires Accepts(p, Revived(w, b), cap, opcode) && MarksFit(d)
    requires OperationCandidate(Revived(w, b), CapLane(cap, b.config), cap.counter, d)
    requires !RequestKnown(w, cap.requestId) && cap.requestId != requestId
    requires (p.verify)(d.config.anchorRoot, CommitAckPreimage(AckFor(p, Entry(d, cap.requestId), n[5], s1)), s1)
    ensures Run(p, vs, ts)
    ensures vs[|ts|].accepted == w.accepted + [Acceptance(cap, CapLane(cap, b.config), d.freshnessEpoch)]
  {
    var v, e := us[|ss|], Entry(d, cap.requestId);
    var c := Revived(w, b);
    SeededKeeps(b, MarksOf(b), Last(w).freshnessEpoch + 1);
    ThirdNonce(p, sign, w, b, requestId, n, s0);
    OperationEpoch(c, CapLane(cap, b.config), cap.counter, d);
    NextRequest(p, w, v, b, requestId, cap.requestId);
    SameLane(cap, c.config, b.config);
    hide Run, Revivable, Seeded, MarksOf, Accepts, OperationCandidate, CommitAckPreimage, CapLane, NonceUsed,
        RequestKnown, RevivalStatements, ForgedEntry, AckFor, MarksFit, Completed;
    OperateStep(p, v, cap, opcode, d, n[5]);
    hide Enabled, After;
    vs, ts := ProposalCompletes(p, us, ss, Operate(cap, opcode, d, n[5]), e, n[5],
                                Some(Acceptance(cap, CapLane(cap, b.config), d.freshnessEpoch)), s1);
    CompletedAccepts(p, v, e, n[5], Acceptance(cap, CapLane(cap, b.config), d.freshnessEpoch), s1);
  }

  lemma {:induction false} SameLane(cap: Capability, c: KeystoreConfig, b: KeystoreConfig)
    requires c == b
    ensures CapLane(cap, c) == CapLane(cap, b)
  {
  }

  lemma {:induction false} OperateStep(p: Primitives, w: World, cap: Capability, opcode: u8, d: KeystoreBody,
      nonce: bytes32)
    requires w.ledger != [] && CanOperate(p, w, cap, opcode, d) && !NonceUsed(w, nonce)
    ensures Enabled(p, w, Operate(cap, opcode, d, nonce))
    ensures After(p, w, Operate(cap, opcode, d, nonce))
            == Proposed(w, Entry(d, cap.requestId), nonce,
                        Some(Acceptance(cap, CapLane(cap, w.live.value.config), d.freshnessEpoch)))
  {
    hide Accepts, OperationCandidate, CapLane, MarksOf, MarksFit, NonceUsed;
  }

  lemma {:induction false} CompletedAccepts(p: Primitives, w: World, e: Entry, nonce: bytes32, a: Acceptance,
      signature: bytes64)
    ensures Completed(p, w, e, nonce, Some(a), signature).accepted == w.accepted + [a]
  {
    hide AlreadyRecorded, AckStatement, MarksOf;
  }

  lemma {:induction false} NextRequest(p: Primitives, w: World, v: World, b: KeystoreBody, requestId: bytes,
      next: bytes)
    requires Revivable(w, b, requestId) && !RequestKnown(w, next) && next != requestId
    requires v.ledger == w.ledger + [ForgedEntry(w, RevivalOf(p, w, b, requestId))]
    ensures forall x: World | x.ledger == v.ledger :: !RequestKnown(x, next)
    ensures v.ledger != [] && Last(v).freshnessEpoch == Last(w).freshnessEpoch + 1
  {
    hide ValidBody, MarksFit, LocalDigest;
    assert v.ledger[|w.ledger|] == ForgedEntry(w, RevivalOf(p, w, b, requestId));
    forall i | 0 <= i < |v.ledger| ensures v.ledger[i].requestId != next {
      if i < |w.ledger| {
        assert v.ledger[i] == w.ledger[i];
      }
    }
  }

  lemma {:induction false} ThirdNonce(p: Primitives, sign: bytes -> bytes64, w: World, b: KeystoreBody,
      requestId: bytes,
      n: seq<bytes32>, s0: bytes64)
    requires SixNonces(n)
    requires Revivable(w, b, requestId) && !NonceUsed(w, n[5])
    ensures !NonceUsed(RevivedWorld(p, sign, w, b, requestId, n[2], n[3], n[4], s0), n[5])
  {
    hide ValidBody, MarksFit, LocalDigest, Seeded, MarksOf, AnchorPreimage, ReportDataPreimage;
  }
}
