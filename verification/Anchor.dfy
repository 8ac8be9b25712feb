/**
  The anchor's three signed replies: the freshness response, the raw-marks response and the commit
  acknowledgement. What each signature covers, which byte strings are accepted, and how the local
  state is reconciled with a verified anchor state.
 */
module Anchor {
  import opened Wrappers
  import opened Bytes
  import opened Cbor
  import opened Crypto
  import opened Emit
  import opened Keystore
  import opened MapAccess
  import opened Marks
  import opened Positional
  import opened StrictParsing

  const ANCHOR_RESPONSE_VERSION: u64 := 1
  const MARKS_RESP_VERSION: u64 := 1
  const COMMIT_ACK_VERSION: u64 := 1

  function AnchorDomain(): bytes {
    Ascii("2d-hsm/agent-anchor/v1\0")
  }

  function MarksRespDomain(): bytes {
    Ascii("2d-hsm/agent-anchor-marks-resp/v1\0")
  }

  function CommitAckDomain(): bytes {
    Ascii("2d-hsm/agent-anchor-commit-ack/v1\0")
  }

  datatype AnchorError = Malformed | SignatureInvalid | ScopeMismatch | NonceMismatch

  datatype AnchorState = AnchorState(
    epoch: u64,
    structuralVersion: u64,
    marksDigest: bytes32,
    chainHeight: Option<u64>,
    chainBlockHash: Option<bytes32>)

  datatype AnchorResponse = AnchorResponse(
    version: u64,
    chainId: u64,
    environmentIdentifier: bytes,
    epoch: u64,
    structuralVersion: u64,
    marksDigest: bytes32,
    nonce: bytes32,
    chainHeight: Option<u64>,
    chainBlockHash: Option<bytes32>,
    signature: bytes64)

  // ---------------------------------------------------------------- freshness response: parsing

  predicate AnchorKey(n: nat) {
    1 <= n <= 9 || n == 13
  }

  function Required<T>(v: Option<T>): Result<T, AnchorError> {
    match v case Some(x) => Ok(x) case None => Err(Malformed)
  }

  function GetText(m: entries, key: u64): Option<bytes> {
    var v := MapGet(m, key);
    if v.Some? && v.value.Text? then Some(v.value.t) else None
  }

  /** Absent is `Ok(None)`; present but of the wrong type is an error. */
  function OptionalU64(m: entries, key: u64): Result<Option<u64>, AnchorError> {
    if MapGet(m, key).None? then Ok(None)
    else if GetU64(m, key).Some? then Ok(Some(GetU64(m, key).value))
    else Err(Malformed)
  }

  function OptionalBytes32(m: entries, key: u64): Result<Option<bytes32>, AnchorError> {
    if MapGet(m, key).None? then Ok(None)
    else if GetBytes32(m, key).Some? then Ok(Some(GetBytes32(m, key).value))
    else Err(Malformed)
  }

  function ParseResponse(m: entries): Result<AnchorResponse, AnchorError> {
    if !StrictKeys(m, AnchorKey) then Err(Malformed) else
    var version :- Required(GetU64(m, 1));
    var chainId :- Required(GetU64(m, 2));
    var env :- Required(GetText(m, 3));
    var epoch :- Required(GetU64(m, 4));
    var structural :- Required(GetU64(m, 5));
    var digest :- Required(GetBytes32(m, 6));
    var nonce :- Required(GetBytes32(m, 7));
    var height :- OptionalU64(m, 8);
    var hash :- OptionalBytes32(m, 9);
    if height.Some? != hash.Some? then Err(Malformed) else
    var signature :- Required(GetBytes64(m, 13));
    Ok(AnchorResponse(version, chainId, env, epoch, structural, digest, nonce, height, hash, signature))
  }

  // ---------------------------------------------------------------- freshness response: emitting

  function PlainPairs(r: AnchorResponse): entries {
    [(Int(1), Int(r.version)), (Int(2), Int(r.chainId)), (Int(3), Text(r.environmentIdentifier)),
     (Int(4), Int(r.epoch)), (Int(5), Int(r.structuralVersion)), (Int(6), Bstr(r.marksDigest)), (Int(7), Bstr(r.nonce))]
  }

  /** The chain binding is signed only when both of its halves are present. */
  function ChainPairs(r: AnchorResponse): entries {
    match (r.chainHeight, r.chainBlockHash)
    case (Some(h), Some(b)) => [(Int(8), Int(h)), (Int(9), Bstr(b))]
    case _ => []
  }

  function SignedPairs(r: AnchorResponse): entries {
    PlainPairs(r) + ChainPairs(r)
  }

  /** The whole response as a conformant anchor sends it. */
  function WireEntries(r: AnchorResponse): entries {
    SignedPairs(r) + [(Int(13), Bstr(r.signature))]
  }

  function AnchorPreimage(r: AnchorResponse): bytes {
    AnchorDomain() + Encode(MapV(SignedPairs(r)))
  }

  method SignedPreimage(r: AnchorResponse) returns (out: bytes)
    requires |r.environmentIdentifier| <= U64_MAX
    ensures out == AnchorPreimage(r)
  {
    hide Head, Encode, EncodeEntries;
    var count := if r.chainHeight.Some? && r.chainBlockHash.Some? then 9 else 7;
    out := PutMapHeader(AnchorDomain(), count);
    ghost var base, d := out, [];
    out, d := PutUintEntry(out, base, d, 1, r.version);
    out, d := PutUintEntry(out, base, d, 2, r.chainId);
    out, d := PutTextEntry(out, base, d, 3, r.environmentIdentifier);
    out, d := PutUintEntry(out, base, d, 4, r.epoch);
    out, d := PutUintEntry(out, base, d, 5, r.structuralVersion);
    out, d := PutBytesEntry(out, base, d, 6, r.marksDigest);
    out, d := PutBytesEntry(out, base, d, 7, r.nonce);
    assert d == PlainPairs(r);
    match (r.chainHeight, r.chainBlockHash) {
      case (Some(h), Some(b)) =>
        out, d := PutUintEntry(out, base, d, 8, h);
        out, d := PutBytesEntry(out, base, d, 9, b);
      case _ =>
    }
    assert d == SignedPairs(r);
    EncodeMap(AnchorDomain(), d);
  }

  // ---------------------------------------------------------------- freshness response: the wire bytes

  predicate BothOrNeither(r: AnchorResponse) {
    r.chainHeight.Some? <==> r.chainBlockHash.Some?
  }

  /** The responses that have an acceptable encoding. */
  predicate LegalResponse(r: AnchorResponse) {
    BothOrNeither(r) && |r.environmentIdentifier| <= MAX_STR_LEN && ValidUtf8(r.environmentIdentifier)
  }

  lemma {:induction false} WireShape(r: AnchorResponse)
    requires BothOrNeither(r)
    ensures var w := WireEntries(r);
            && |w| == (if r.chainHeight.Some? then 10 else 8)
            && UintKeysAscend(w) && StrictKeys(w, AnchorKey)
            && (forall i | 0 <= i < 7 :: w[i] == PlainPairs(r)[i])
            && (r.chainHeight.Some? ==>
                  w[7] == (Int(8), Int(r.chainHeight.value)) && w[8] == (Int(9), Bstr(r.chainBlockHash.value)))
            && w[|w| - 1] == (Int(13), Bstr(r.signature))
  {
    UintKeysDistinct(WireEntries(r));
  }

  /** What a lookup in an encoded response returns, key by key. */
  function WireGet(r: AnchorResponse, key: u64): Option<Value> {
    match key
    case 1 => Some(Int(r.version))
    case 2 => Some(Int(r.chainId))
    case 3 => Some(Text(r.environmentIdentifier))
    case 4 => Some(Int(r.epoch))
    case 5 => Some(Int(r.structuralVersion))
    case 6 => Some(Bstr(r.marksDigest))
    case 7 => Some(Bstr(r.nonce))
    case 8 => if r.chainHeight.Some? then Some(Int(r.chainHeight.value)) else None
    case 9 => if r.chainBlockHash.Some? then Some(Bstr(r.chainBlockHash.value)) else None
    case 13 => Some(Bstr(r.signature))
    case _ => None
  }

  lemma {:induction false} WireLookup(r: AnchorResponse, key: u64)
    requires BothOrNeither(r)
    ensures MapGet(WireEntries(r), key) == WireGet(r, key)
  {
    hide MapGet, StrictKeys, UintKeysAscend;
    WireShape(r);
    var w := WireEntries(r);
    UintKeysDistinct(w);
    if 1 <= key <= 7 {
      MapGetAt(w, key - 1, key);
    } else if key == 13 {
      MapGetAt(w, |w| - 1, key);
    } else if r.chainHeight.Some? && (key == 8 || key == 9) {
      MapGetAt(w, key - 1, key);
    } else {
      AbsentKey(w, key);
    }
  }

  lemma {:induction false} ParseOfWire(r: AnchorResponse)
    requires BothOrNeither(r)
    ensures ParseResponse(WireEntries(r)) == Ok(r)
  {
    hide MapGet, StrictKeys, UintKeysAscend, WireEntries;
    WireShape(r);
    WireLookup(r, 1);
    WireLookup(r, 2);
    WireLookup(r, 3);
    WireLookup(r, 4);
    WireLookup(r, 5);
    WireLookup(r, 6);
    WireLookup(r, 7);
    WireLookup(r, 8);
    WireLookup(r, 9);
    WireLookup(r, 13);
  }

  /** A parsed map says, key by key, what the parsed response says. */
  lemma {:induction false} ParsedLookup(m: entries, r: AnchorResponse, key: u64)
    requires ParseResponse(m) == Ok(r)
    ensures BothOrNeither(r) && MapGet(m, key) == WireGet(r, key)
  {
    hide MapGet, StrictKeys;
    if !AnchorKey(key) {
      ForbiddenKey(m, AnchorKey, key);
    }
  }

  /**
    Parsing is the exact inverse of emitting on maps with ascending keys: nothing that parses carries
    an unsigned, unknown or repeated field.
   */
  lemma {:induction false} ParseIsInverse(m: entries, r: AnchorResponse)
    requires UintKeysAscend(m)
    ensures ParseResponse(m) == Ok(r) <==> BothOrNeither(r) && m == WireEntries(r)
  {
    hide MapGet, ParseResponse, WireEntries, WireGet;
    if ParseResponse(m) == Ok(r) {
      ParsedLookup(m, r, 1);
      WireShape(r);
      forall k: u64 ensures MapGet(m, k) == MapGet(WireEntries(r), k) {
        ParsedLookup(m, r, k);
        WireLookup(r, k);
      }
      SameLookupsSameMap(m, WireEntries(r));
    } else if BothOrNeither(r) {
      ParseOfWire(r);
    }
  }

  /** The response that `bytes` strict-decode and parse to. */
  ghost function DecodedResponse(bytes: bytes): Option<AnchorResponse> {
    var m := DecodedMap(bytes, MAX_STR_LEN);
    if m.None? then None else match ParseResponse(m.value) case Ok(r) => Some(r) case Err(_) => None
  }

  lemma {:induction false} WireLegal(r: AnchorResponse)
    requires BothOrNeither(r)
    ensures Legal(MapV(WireEntries(r)), 1, MAX_STR_LEN) <==> LegalResponse(r)
  {
    hide WireEntries, ValidUtf8, StrictKeys;
    WireShape(r);
    var w := WireEntries(r);
    UintKeysCanonical(w);
    assert w[2] == (Int(3), Text(r.environmentIdentifier));
    if LegalResponse(r) {
      forall i | 0 <= i < |w| ensures Legal(w[i].0, 2, MAX_STR_LEN) && Legal(w[i].1, 2, MAX_STR_LEN) {
        if i < 7 {
          assert w[i] == PlainPairs(r)[i];
        }
      }
    }
  }

  /**
    The accepted freshness responses are exactly the canonical encodings of legal responses: one byte
    string per response and one response per byte string.
   */
  lemma {:induction false} AnchorWireExact(bytes: bytes, r: AnchorResponse)
    ensures DecodedResponse(bytes) == Some(r) <==> LegalResponse(r) && bytes == Encode(MapV(WireEntries(r)))
  {
    hide Legal, ParseResponse, WireEntries, LegalResponse, KeysAscend, StrictKeys;
    if DecodedResponse(bytes) == Some(r) {
      var m := DecodedMap(bytes, MAX_STR_LEN).value;
      ParsedStrict(m, r);
      StrictKeysAscend(m, AnchorKey, MAX_STR_LEN);
      ParseIsInverse(m, r);
      WireLegal(r);
    } else if LegalResponse(r) && bytes == Encode(MapV(WireEntries(r))) {
      LegalBoth(r);
      WireLegal(r);
      DecodedMapIs(bytes, WireEntries(r), MAX_STR_LEN);
      ParseOfWire(r);
    }
  }

  lemma {:induction false} ParsedStrict(m: entries, r: AnchorResponse)
    requires ParseResponse(m) == Ok(r)
    ensures StrictKeys(m, AnchorKey)
  {
    hide StrictKeys, MapGet;
  }

  lemma {:induction false} LegalBoth(r: AnchorResponse)
    requires LegalResponse(r)
    ensures BothOrNeither(r)
  {
  }

  lemma {:induction false} SignedPairsSized(r: AnchorResponse)
    requires |r.environmentIdentifier| <= U64_MAX
    ensures Sized(MapV(SignedPairs(r)))
  {
    FlatSized(SignedPairs(r));
  }

  lemma {:induction false} SignedPairsDetermine(r: AnchorResponse, s: AnchorResponse)
    requires BothOrNeither(r) && BothOrNeither(s) && SignedPairs(r) == SignedPairs(s)
    ensures r.(signature := s.signature) == s
  {
    var x, y := SignedPairs(r), SignedPairs(s);
    assert |x| == |y|;
    assert x[0] == y[0] && x[1] == y[1] && x[2] == y[2] && x[3] == y[3] && x[4] == y[4] && x[5] == y[5] && x[6] == y[6];
    if |x| == 9 {
      assert x[7] == y[7] && x[8] == y[8];
    }
  }

  /** The preimage determines every signed field. */
  lemma {:induction false} AnchorPreimageInjective(r: AnchorResponse, s: AnchorResponse)
    requires BothOrNeither(r) && BothOrNeither(s)
    requires |r.environmentIdentifier| <= U64_MAX && |s.environmentIdentifier| <= U64_MAX
    requires AnchorPreimage(r) == AnchorPreimage(s)
    ensures r.(signature := s.signature) == s
  {
    hide Encode, SignedPairs, Sized;
    SplitAt(AnchorDomain(), Encode(MapV(SignedPairs(r))), AnchorDomain(), Encode(MapV(SignedPairs(s))));
    SignedPairsSized(r);
    SignedPairsSized(s);
    EncodeInjective(MapV(SignedPairs(r)), MapV(SignedPairs(s)));
    SignedPairsDetermine(r, s);
  }

  /** A signature binds the exact wire bytes: equal preimages and signatures, equal byte strings. */
  lemma {:induction false} AnchorSignatureBindsWire(b1: bytes, b2: bytes)
    requires DecodedResponse(b1).Some? && DecodedResponse(b2).Some?
    requires var r, s := DecodedResponse(b1).value, DecodedResponse(b2).value;
             AnchorPreimage(r) == AnchorPreimage(s) && r.signature == s.signature
    ensures b1 == b2
  {
    hide DecodedResponse, AnchorPreimage, Encode, WireEntries;
    var r, s := DecodedResponse(b1).value, DecodedResponse(b2).value;
    AnchorWireExact(b1, r);
    AnchorWireExact(b2, s);
    AnchorPreimageInjective(r, s);
  }

  // ---------------------------------------------------------------- freshness response: verification

  function StateOf(r: AnchorResponse): AnchorState {
    AnchorState(r.epoch, r.structuralVersion, r.marksDigest, r.chainHeight, r.chainBlockHash)
  }

  predicate InScope(chainId: u64, env: bytes, config: KeystoreConfig) {
    chainId == config.twodChainId && env == config.environmentIdentifier
  }

  /** The anchor whose key is sealed in `config` signed `r`. */
  predicate AnchorSigned(p: Primitives, r: AnchorResponse, config: KeystoreConfig) {
    (p.verify)(config.anchorRoot, AnchorPreimage(r), r.signature)
  }

  /** The verdict on a decoded response, in the order the reasons are reported. */
  function AnchorVerdict(p: Primitives, d: Option<AnchorResponse>, nonce: bytes32, config: KeystoreConfig)
    : Result<AnchorState, AnchorError>
  {
    if d.None? || d.value.version != ANCHOR_RESPONSE_VERSION then Err(Malformed)
    else if !AnchorSigned(p, d.value, config) then Err(SignatureInvalid)
    else if !InScope(d.value.chainId, d.value.environmentIdentifier, config) then Err(ScopeMismatch)
    else if d.value.nonce != nonce then Err(NonceMismatch)
    else Ok(StateOf(d.value))
  }

  method VerifyAnchorResponse(p: Primitives, m: entries, nonce: bytes32, config: KeystoreConfig)
    returns (res: Result<AnchorState, AnchorError>)
    requires Legal(MapV(m), 1, MAX_STR_LEN)
    ensures res == AnchorVerdict(p, match ParseResponse(m) case Ok(r) => Some(r) case Err(_) => None, nonce, config)
  {
    hide AnchorPreimage, Encode, ValidUtf8;
    var ok := CheckStrictKeys(m, AnchorKey);
    if !ok {
      return Err(Malformed);
    }
    if ParseResponse(m).Ok? {
      ParsedTextIsShort(m, ParseResponse(m).value);
    } else {
      ParseErrorIsMalformed(m);
    }
    var r :- ParseResponse(m);
    if r.version != ANCHOR_RESPONSE_VERSION {
      return Err(Malformed);
    }
    var preimage := SignedPreimage(r);
    if !(p.verify)(config.anchorRoot, preimage, r.signature) {
      return Err(SignatureInvalid);
    }
    if r.chainId != config.twodChainId || r.environmentIdentifier != config.environmentIdentifier {
      return Err(ScopeMismatch);
    }
    if r.nonce != nonce {
      return Err(NonceMismatch);
    }
    res := Ok(AnchorState(r.epoch, r.structuralVersion, r.marksDigest, r.chainHeight, r.chainBlockHash));
  }

  lemma {:induction false} ParseErrorIsMalformed(m: entries)
    ensures ParseResponse(m).Err? ==> ParseResponse(m).error == Malformed
  {
    hide StrictKeys, MapGet;
  }

  lemma {:induction false} ParsedText(m: entries, r: AnchorResponse)
    requires ParseResponse(m) == Ok(r)
    ensures MapGet(m, 3) == Some(Text(r.environmentIdentifier))
  {
    hide StrictKeys, MapGet;
  }

  lemma {:induction false} ShortText(m: entries, key: u64)
    requires Legal(MapV(m), 1, MAX_STR_LEN) && MapGet(m, key).Some? && MapGet(m, key).value.Text?
    ensures |MapGet(m, key).value.t| <= MAX_STR_LEN
  {
    hide MapGet, KeysAscend, ValidUtf8;
    MapGetFound(m, key);
    var i :| 0 <= i < |m| && m[i] == (Int(key), MapGet(m, key).value);
    assert Legal(m[i].1, 2, MAX_STR_LEN);
  }

  lemma {:induction false} ParsedTextIsShort(m: entries, r: AnchorResponse)
    requires Legal(MapV(m), 1, MAX_STR_LEN) && ParseResponse(m) == Ok(r)
    ensures |r.environmentIdentifier| <= MAX_STR_LEN
  {
    hide ParseResponse, Legal;
    ParsedText(m, r);
    ShortText(m, 3);
  }

  method VerifyAnchorResponseBytes(p: Primitives, bytes: bytes, nonce: bytes32, config: KeystoreConfig)
    returns (res: Result<AnchorState, AnchorError>)
    ensures res == AnchorVerdict(p, DecodedResponse(bytes), nonce, config)
  {
    hide AnchorPreimage, ParseResponse, Legal;
    var m := StrictDecodeMap(bytes);
    if m.None? {
      return Err(Malformed);
    }
    res := VerifyAnchorResponse(p, m.value, nonce, config);
  }

  /**
    Acceptance, spelled out: the bytes are the canonical encoding of a version-1 response that the
    sealed anchor key signed, for the sealed scope, echoing `nonce` and stating exactly `st`.
   */
  lemma {:induction false} AnchorAcceptsExactly(p: Primitives, bytes: bytes, nonce: bytes32, config: KeystoreConfig,
      st: AnchorState)
    ensures AnchorVerdict(p, DecodedResponse(bytes), nonce, config) == Ok(st) <==>
            exists r :: && LegalResponse(r) && bytes == Encode(MapV(WireEntries(r)))
                        && r.version == ANCHOR_RESPONSE_VERSION && AnchorSigned(p, r, config)
                        && InScope(r.chainId, r.environmentIdentifier, config)
                        && r.nonce == nonce && StateOf(r) == st
  {
    hide Encode, WireEntries, DecodedResponse, LegalResponse, AnchorSigned;
    forall r | LegalResponse(r) && bytes == Encode(MapV(WireEntries(r))) ensures DecodedResponse(bytes) == Some(r) {
      AnchorWireExact(bytes, r);
    }
    if AnchorVerdict(p, DecodedResponse(bytes), nonce, config) == Ok(st) {
      AnchorWireExact(bytes, DecodedResponse(bytes).value);
      assert LegalResponse(DecodedResponse(bytes).value);
    }
  }

  // ---------------------------------------------------------------- reconcile

  datatype FailReason = AnchorBehind | StructuralGap | Inconsistent

  datatype ReconcileDecision = Fresh | AdoptForward(epoch: u64) | FailClosed(reason: FailReason)

  function Reconcile(localEpoch: u64, localStructural: u64, localDigest: bytes32,
      anchor: AnchorState): ReconcileDecision {
    if anchor.epoch < localEpoch then FailClosed(AnchorBehind)
    else if anchor.epoch == localEpoch then
      if anchor.structuralVersion == localStructural && anchor.marksDigest == localDigest
      then Fresh
      else FailClosed(Inconsistent)
    else
      if anchor.structuralVersion == localStructural
      then AdoptForward(anchor.epoch)
      else FailClosed(StructuralGap)
  }

  // ---------------------------------------------------------------- raw-marks response

  datatype MarksError =
    | MarksMalformed
    | MarksSignatureInvalid
    | MarksScopeMismatch
    | MarksNonceMismatch
    | MarksEpochMismatch

  function MarksRespPreimage(f: MarksRespFields): bytes {
    MarksRespDomain() + Encode(MapV(MarksRespSigned(f)))
  }

  method MarksRespSignedPreimage(f: MarksRespFields) returns (out: bytes)
    requires |f.environmentIdentifier| <= U64_MAX && |f.marksPayload| <= U64_MAX
    ensures out == MarksRespPreimage(f)
  {
    hide Head, Encode, EncodeEntries;
    out := PutMapHeader(MarksRespDomain(), 6);
    ghost var base, d := out, [];
    out, d := PutUintEntry(out, base, d, 1, f.version);
    out, d := PutUintEntry(out, base, d, 2, f.chainId);
    out, d := PutTextEntry(out, base, d, 3, f.environmentIdentifier);
    out, d := PutUintEntry(out, base, d, 4, f.epoch);
    out, d := PutBytesEntry(out, base, d, 5, f.nonce);
    out, d := PutBytesEntry(out, base, d, 6, f.marksPayload);
    assert d == MarksRespSigned(f);
    EncodeMap(MarksRespDomain(), d);
  }

  predicate MarksRespIsSigned(p: Primitives, f: MarksRespFields, config: KeystoreConfig) {
    (p.verify)(config.anchorRoot, MarksRespPreimage(f), f.signature)
  }

  function MarksVerdict(p: Primitives, d: Option<MarksRespFields>, nonce: bytes32, epoch: u64, config: KeystoreConfig)
    : Result<bytes, MarksError>
  {
    if d.None? || d.value.version != MARKS_RESP_VERSION then Err(MarksMalformed)
    else if !MarksRespIsSigned(p, d.value, config) then Err(MarksSignatureInvalid)
    else if !InScope(d.value.chainId, d.value.environmentIdentifier, config) then Err(MarksScopeMismatch)
    else if d.value.nonce != nonce then Err(MarksNonceMismatch)
    else if d.value.epoch != epoch then Err(MarksEpochMismatch)
    else Ok(d.value.marksPayload)
  }

  method VerifyMarksResponseBytes(p: Primitives, bytes: bytes, nonce: bytes32, epoch: u64, config: KeystoreConfig)
    returns (res: Result<bytes, MarksError>)
    ensures res == MarksVerdict(p, DecodedMarksResp(bytes, MAX_MARKS_PAYLOAD_LEN), nonce, epoch, config)
  {
    hide Encode, ValidUtf8, MarksRespPreimage, MarksRespEntries;
    var d := StrictDecodeMarksResponse(bytes, MAX_MARKS_PAYLOAD_LEN);
    if d.None? {
      return Err(MarksMalformed);
    }
    var f := d.value;
    if f.version != MARKS_RESP_VERSION {
      return Err(MarksMalformed);
    }
    var preimage := MarksRespSignedPreimage(f);
    if !(p.verify)(config.anchorRoot, preimage, f.signature) {
      return Err(MarksSignatureInvalid);
    }
    if f.chainId != config.twodChainId || f.environmentIdentifier != config.environmentIdentifier {
      return Err(MarksScopeMismatch);
    }
    if f.nonce != nonce {
      return Err(MarksNonceMismatch);
    }
    if f.epoch != epoch {
      return Err(MarksEpochMismatch);
    }
    res := Ok(f.marksPayload);
  }

  lemma {:induction false} MarksRespPreimageInjective(f: MarksRespFields, g: MarksRespFields)
    requires |f.environmentIdentifier| <= U64_MAX && |f.marksPayload| <= U64_MAX
    requires |g.environmentIdentifier| <= U64_MAX && |g.marksPayload| <= U64_MAX
    requires MarksRespPreimage(f) == MarksRespPreimage(g)
    ensures f.(signature := g.signature) == g
  {
    SplitAt(MarksRespDomain(), Encode(MapV(MarksRespSigned(f))), MarksRespDomain(), Encode(MapV(MarksRespSigned(g))));
    FlatSized(MarksRespSigned(f));
    FlatSized(MarksRespSigned(g));
    EncodeInjective(MapV(MarksRespSigned(f)), MapV(MarksRespSigned(g)));
    MarksRespSignedDetermines(f, g);
  }

  /** A marks signature binds the exact wire bytes. */
  lemma {:induction false} MarksSignatureBindsWire(b1: bytes, b2: bytes)
    requires DecodedMarksResp(b1, MAX_MARKS_PAYLOAD_LEN).Some? && DecodedMarksResp(b2, MAX_MARKS_PAYLOAD_LEN).Some?
    requires var f, g := DecodedMarksResp(b1, MAX_MARKS_PAYLOAD_LEN).value,
        DecodedMarksResp(b2, MAX_MARKS_PAYLOAD_LEN).value;
             MarksRespPreimage(f) == MarksRespPreimage(g) && f.signature == g.signature
    ensures b1 == b2
  {
    hide MarksRespPreimage, Encode, MarksRespEntries, ValidUtf8;
    var f, g := DecodedMarksResp(b1, MAX_MARKS_PAYLOAD_LEN).value, DecodedMarksResp(b2, MAX_MARKS_PAYLOAD_LEN).value;
    assert MarksRespBytes(b1, f, MAX_MARKS_PAYLOAD_LEN) && MarksRespBytes(b2, g, MAX_MARKS_PAYLOAD_LEN);
    MarksRespPreimageInjective(f, g);
  }

  /** Acceptance of a marks reply, spelled out like that of a freshness response. */
  lemma {:induction false} MarksAcceptsExactly(p: Primitives, bytes: bytes, nonce: bytes32, epoch: u64,
      config: KeystoreConfig, payload: bytes)
    ensures MarksVerdict(p, DecodedMarksResp(bytes, MAX_MARKS_PAYLOAD_LEN), nonce, epoch, config) == Ok(payload) <==>
            exists f :: && LegalMarksResp(f, MAX_MARKS_PAYLOAD_LEN) && bytes == Encode(MapV(MarksRespEntries(f)))
                        && f.version == MARKS_RESP_VERSION && MarksRespIsSigned(p, f, config)
                        && InScope(f.chainId, f.environmentIdentifier, config)
                        && f.nonce == nonce && f.epoch == epoch && f.marksPayload == payload
  {
    hide Encode, MarksRespEntries, MarksRespIsSigned, LegalMarksResp;
    forall f | LegalMarksResp(f, MAX_MARKS_PAYLOAD_LEN) && bytes == Encode(MapV(MarksRespEntries(f)))
      ensures DecodedMarksResp(bytes, MAX_MARKS_PAYLOAD_LEN) == Some(f)
    {
      assert MarksRespBytes(bytes, f, MAX_MARKS_PAYLOAD_LEN);
    }
    if MarksVerdict(p, DecodedMarksResp(bytes, MAX_MARKS_PAYLOAD_LEN), nonce, epoch, config) == Ok(payload) {
      assert MarksRespBytes(bytes, DecodedMarksResp(bytes, MAX_MARKS_PAYLOAD_LEN).value, MAX_MARKS_PAYLOAD_LEN);
    }
  }

  // ---------------------------------------------------------------- commit acknowledgement

  datatype CommitAckError =
    | AckMalformed
    | AckSignatureInvalid
    | AckScopeMismatch
    | AckNonceMismatch
    | AckEpochMismatch
    | AckStructuralMismatch
    | AckMarksMismatch
    | AckRequestIdMismatch

  /** What the enclave proposed and the anchor must echo. */
  datatype Proposal = Proposal(
    nonce: bytes32,
    epoch: u64,
    structuralVersion: u64,
    marksDigest: bytes32,
    requestId: bytes)

  function CommitAckPreimage(f: CommitAckFields): bytes {
    CommitAckDomain() + Encode(MapV(CommitAckSigned(f)))
  }

  method CommitAckSignedPreimage(f: CommitAckFields) returns (out: bytes)
    requires |f.environmentIdentifier| <= U64_MAX && |f.requestId| <= U64_MAX
    ensures out == CommitAckPreimage(f)
  {
    hide Head, Encode, EncodeEntries;
    out := PutMapHeader(CommitAckDomain(), 8);
    ghost var base, d := out, [];
    out, d := PutUintEntry(out, base, d, 1, f.version);
    out, d := PutUintEntry(out, base, d, 2, f.chainId);
    out, d := PutTextEntry(out, base, d, 3, f.environmentIdentifier);
    out, d := PutUintEntry(out, base, d, 4, f.epoch);
    out, d := PutUintEntry(out, base, d, 5, f.structuralVersion);
    out, d := PutBytesEntry(out, base, d, 6, f.marksDigest);
    out, d := PutBytesEntry(out, base, d, 7, f.nonce);
    out, d := PutBytesEntry(out, base, d, 8, f.requestId);
    assert d == CommitAckSigned(f);
    EncodeMap(CommitAckDomain(), d);
  }

  predicate CommitAckIsSigned(p: Primitives, f: CommitAckFields, config: KeystoreConfig) {
    (p.verify)(config.anchorRoot, CommitAckPreimage(f), f.signature)
  }

  function CommitAckVerdict(p: Primitives, d: Option<CommitAckFields>, e: Proposal, config: KeystoreConfig)
    : Result<(), CommitAckError>
  {
    if d.None? || d.value.version != COMMIT_ACK_VERSION then Err(AckMalformed)
    else if !CommitAckIsSigned(p, d.value, config) then Err(AckSignatureInvalid)
    else if !InScope(d.value.chainId, d.value.environmentIdentifier, config) then Err(AckScopeMismatch)
    else if d.value.nonce != e.nonce then Err(AckNonceMismatch)
    else if d.value.epoch != e.epoch then Err(AckEpochMismatch)
    else if d.value.structuralVersion != e.structuralVersion then Err(AckStructuralMismatch)
    else if d.value.marksDigest != e.marksDigest then Err(AckMarksMismatch)
    else if d.value.requestId != e.requestId then Err(AckRequestIdMismatch)
    else Ok(())
  }

  method VerifyCommitAckBytes(p: Primitives, bytes: bytes, e: Proposal, config: KeystoreConfig)
    returns (res: Result<(), CommitAckError>)
    ensures res == CommitAckVerdict(p, DecodedCommitAck(bytes, MAX_REQUEST_ID_LEN), e, config)
  {
    hide Encode, ValidUtf8, CommitAckPreimage, CommitAckEntries;
    var d := StrictDecodeCommitAck(bytes, MAX_REQUEST_ID_LEN);
    if d.None? {
      return Err(AckMalformed);
    }
    var f := d.value;
    if f.version != COMMIT_ACK_VERSION {
      return Err(AckMalformed);
    }
    var preimage := CommitAckSignedPreimage(f);
    if !(p.verify)(config.anchorRoot, preimage, f.signature) {
      return Err(AckSignatureInvalid);
    }
    if f.chainId != config.twodChainId || f.environmentIdentifier != config.environmentIdentifier {
      return Err(AckScopeMismatch);
    }
    if f.nonce != e.nonce {
      return Err(AckNonceMismatch);
    }
    if f.epoch != e.epoch {
      return Err(AckEpochMismatch);
    }
    if f.structuralVersion != e.structuralVersion {
      return Err(AckStructuralMismatch);
    }
    if f.marksDigest != e.marksDigest {
      return Err(AckMarksMismatch);
    }
    if f.requestId != e.requestId {
      return Err(AckRequestIdMismatch);
    }
    res := Ok(());
  }

  lemma {:induction false} CommitAckPreimageInjective(f: CommitAckFields, g: CommitAckFields)
    requires |f.environmentIdentifier| <= U64_MAX && |f.requestId| <= U64_MAX
    requires |g.environmentIdentifier| <= U64_MAX && |g.requestId| <= U64_MAX
    requires CommitAckPreimage(f) == CommitAckPreimage(g)
    ensures f.(signature := g.signature) == g
  {
    SplitAt(CommitAckDomain(), Encode(MapV(CommitAckSigned(f))), CommitAckDomain(), Encode(MapV(CommitAckSigned(g))));
    FlatSized(CommitAckSigned(f));
    FlatSized(CommitAckSigned(g));
    EncodeInjective(MapV(CommitAckSigned(f)), MapV(CommitAckSigned(g)));
    CommitAckSignedDetermines(f, g);
  }

  /** A commit-acknowledgement signature binds the exact wire bytes. */
  lemma {:induction false} CommitAckSignatureBindsWire(b1: bytes, b2: bytes)
    requires DecodedCommitAck(b1, MAX_REQUEST_ID_LEN).Some? && DecodedCommitAck(b2, MAX_REQUEST_ID_LEN).Some?
    requires var f, g := DecodedCommitAck(b1, MAX_REQUEST_ID_LEN).value, DecodedCommitAck(b2, MAX_REQUEST_ID_LEN).value;
             CommitAckPreimage(f) == CommitAckPreimage(g) && f.signature == g.signature
    ensures b1 == b2
  {
    hide CommitAckPreimage, Encode, CommitAckEntries, ValidUtf8;
    var f, g := DecodedCommitAck(b1, MAX_REQUEST_ID_LEN).value, DecodedCommitAck(b2, MAX_REQUEST_ID_LEN).value;
    assert CommitAckBytes(b1, f, MAX_REQUEST_ID_LEN) && CommitAckBytes(b2, g, MAX_REQUEST_ID_LEN);
    CommitAckPreimageInjective(f, g);
  }
}
