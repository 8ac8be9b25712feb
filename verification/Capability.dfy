/**
  Capabilities: the signed maps that authorise one privileged operation each. What parses, what is
  signed, and when one is accepted against the sealed configuration and counter table.
 */
module Capabilities {
  import opened Wrappers
  import opened Bytes
  import opened Cbor
  import opened Crypto
  import opened Emit
  import opened Keystore
  import opened MapAccess
  import opened StrictParsing

  const CAP_FORMAT_VERSION: u64 := 2
  const OPCODE_GENERATE_KEYS: u8 := 1
  const OPCODE_CONFIGURE_TREASURY: u8 := 6
  const OPCODE_EXPORT_BACKUP: u8 := 7
  const OPCODE_RESTORE_BACKUP: u8 := 8
  const MAX_TREASURY_SUB_OP: u8 := 3
  const TREASURY_SUB_OP_RESET_LIFETIME_BREAKER: u8 := 3
  const MAX_CAP_REQUEST_ID_LEN: nat := 64

  function CapDomain(): bytes {
    Ascii("2d-hsm/agent-cap/v1\0")
  }

  datatype CapError = CapMalformed | CapRejected

  datatype Capability = Capability(
    capFormatVersion: u64,
    commandOpcode: u8,
    treasurySubOp: Option<u8>,
    keyPurpose: u8,
    chainId: u64,
    environmentIdentifier: bytes,
    scopeClass: u8,
    scopeTarget: bytes,
    counter: u64,
    requestId: bytes,
    payloadBinding: bytes32,
    isRecovery: bool,
    scopeIdentity: bytes32,
    signature: bytes64)

  datatype VerifiedCapability = VerifiedCapability(
    authority: bytes32,
    scopeClass: u8,
    scopeTarget: bytes,
    counter: u64,
    payloadBinding: bytes32,
    keyPurpose: u8,
    treasurySubOp: Option<u8>)

  // ---------------------------------------------------------------- parsing

  predicate CapKey(n: nat) {
    1 <= n <= 14
  }

  predicate Privileged(opcode: nat) {
    opcode == OPCODE_GENERATE_KEYS || opcode == OPCODE_CONFIGURE_TREASURY
    || opcode == OPCODE_EXPORT_BACKUP || opcode == OPCODE_RESTORE_BACKUP
  }

  /** 1..=64 bytes of [a-z0-9_-]. */
  predicate ValidScopeTarget(b: bytes) {
    1 <= |b| <= MAX_SCOPE_TARGET_LEN
    && forall i | 0 <= i < |b| :: LowerDigit(b[i]) || b[i] == '_' as int || b[i] == HYPHEN
  }

  function Need<T>(v: Option<T>): Result<T, CapError> {
    match v case Some(x) => Ok(x) case None => Err(CapMalformed)
  }

  function GetU8(m: entries, key: u64): Option<u8> {
    var n := GetU64(m, key);
    if n.Some? && n.value <= U8_MAX then Some(n.value) else None
  }

  function GetBool(m: entries, key: u64): Option<bool> {
    var v := MapGet(m, key);
    if v.Some? && v.value.Boolean? then Some(v.value.v) else None
  }

  function GetEnvironment(m: entries, key: u64): Option<bytes> {
    var v := MapGet(m, key);
    if v.Some? && v.value.Text? && ValidEnvironment(v.value.t) then Some(v.value.t) else None
  }

  /** Key 3 is present exactly when the opcode is CONFIGURE_TREASURY, and then at most 3. */
  function ParseSubOp(m: entries, opcode: u8): Result<Option<u8>, CapError> {
    if MapGet(m, 3).Some? then
      if opcode != OPCODE_CONFIGURE_TREASURY then Err(CapMalformed) else
      var sub :- Need(GetU8(m, 3));
      if sub > MAX_TREASURY_SUB_OP then Err(CapMalformed) else Ok(Some(sub))
    else
      if opcode == OPCODE_CONFIGURE_TREASURY then Err(CapMalformed) else Ok(None)
  }

  function ParseCapability(m: entries): Result<Capability, CapError> {
    if !StrictKeys(m, CapKey) then Err(CapMalformed) else
    var version :- Need(GetU64(m, 1));
    var opcode :- Need(GetU8(m, 2));
    if !Privileged(opcode) then Err(CapMalformed) else
    var sub :- ParseSubOp(m, opcode);
    var purpose :- Need(GetU8(m, 4));
    if !(1 <= purpose <= 2) then Err(CapMalformed) else
    var chainId :- Need(GetU64(m, 5));
    var env :- Need(GetEnvironment(m, 6));
    var scopeClass :- Need(GetU8(m, 7));
    if scopeClass > 1 then Err(CapMalformed) else
    var target :- Need(GetBytes(m, 8));
    if !ValidScopeTarget(target) then Err(CapMalformed) else
    var counter :- Need(GetU64(m, 9));
    var requestId :- Need(GetBytes(m, 10));
    if |requestId| > MAX_CAP_REQUEST_ID_LEN then Err(CapMalformed) else
    var binding :- Need(GetBytes32(m, 11));
    var recovery :- Need(GetBool(m, 12));
    var identity :- Need(GetBytes32(m, 13));
    var signature :- Need(GetBytes64(m, 14));
    Ok(Capability(version, opcode, sub, purpose, chainId, env, scopeClass, target, counter, requestId, binding,
                  recovery, identity, signature))
  }

  /** The field ranges a capability must be in; everything a parsed one satisfies. */
  predicate LegalCapability(c: Capability) {
    && Privileged(c.commandOpcode)
    && (c.treasurySubOp.Some? <==> c.commandOpcode == OPCODE_CONFIGURE_TREASURY)
    && (c.treasurySubOp.Some? ==> c.treasurySubOp.value <= MAX_TREASURY_SUB_OP)
    && 1 <= c.keyPurpose <= 2
    && ValidEnvironment(c.environmentIdentifier)
    && c.scopeClass <= 1
    && ValidScopeTarget(c.scopeTarget)
    && |c.requestId| <= MAX_CAP_REQUEST_ID_LEN
  }

  // ---------------------------------------------------------------- emitting

  function SubOpPairs(c: Capability): entries {
    if c.treasurySubOp.Some? then [(Int(3), Int(c.treasurySubOp.value))] else []
  }

  function CapFront(c: Capability): entries {
    [(Int(1), Int(c.capFormatVersion)), (Int(2), Int(c.commandOpcode))]
  }

  function CapBack(c: Capability): entries {
    [(Int(4), Int(c.keyPurpose)), (Int(5), Int(c.chainId)), (Int(6), Text(c.environmentIdentifier)),
     (Int(7), Int(c.scopeClass)), (Int(8), Bstr(c.scopeTarget)), (Int(9), Int(c.counter)), (Int(10), Bstr(c.requestId)),
     (Int(11), Bstr(c.payloadBinding)), (Int(12), Boolean(c.isRecovery)), (Int(13), Bstr(c.scopeIdentity))]
  }

  function CapSignedPairs(c: Capability): entries {
    CapFront(c) + SubOpPairs(c) + CapBack(c)
  }

  function CapEntries(c: Capability): entries {
    CapSignedPairs(c) + [(Int(14), Bstr(c.signature))]
  }

  function CapPreimage(c: Capability): bytes {
    CapDomain() + Encode(MapV(CapSignedPairs(c)))
  }

  method CapSignedPreimage(c: Capability) returns (out: bytes)
    requires |c.environmentIdentifier| <= U64_MAX && |c.scopeTarget| <= U64_MAX && |c.requestId| <= U64_MAX
    ensures out == CapPreimage(c)
  {
    hide Head, Encode, EncodeEntries;
    var count := if c.treasurySubOp.Some? then 13 else 12;
    out := PutMapHeader(CapDomain(), count);
    ghost var base, d := out, [];
    out, d := PutUintEntry(out, base, d, 1, c.capFormatVersion);
    out, d := PutUintEntry(out, base, d, 2, c.commandOpcode);
    assert d == CapFront(c);
    if c.treasurySubOp.Some? {
      out, d := PutUintEntry(out, base, d, 3, c.treasurySubOp.value);
    }
    assert d == CapFront(c) + SubOpPairs(c);
    out, d := PutCapBack(out, base, d, c);
    assert |d| == count;
    EncodeMap(CapDomain(), d);
  }

  /** Keys 4 to 13 of the preimage. */
  method PutCapBack(out: bytes, ghost base: bytes, ghost done: entries, c: Capability)
      returns (r: bytes, ghost d: entries)
    requires |c.environmentIdentifier| <= U64_MAX && |c.scopeTarget| <= U64_MAX && |c.requestId| <= U64_MAX
    requires out == base + EncodeEntries(done)
    ensures d == done + CapBack(c) && r == base + EncodeEntries(d)
  {
    hide Head, Encode, EncodeEntries;
    r, d := out, done;
    r, d := PutUintEntry(r, base, d, 4, c.keyPurpose);
    r, d := PutUintEntry(r, base, d, 5, c.chainId);
    r, d := PutTextEntry(r, base, d, 6, c.environmentIdentifier);
    r, d := PutUintEntry(r, base, d, 7, c.scopeClass);
    r, d := PutBytesEntry(r, base, d, 8, c.scopeTarget);
    r, d := PutUintEntry(r, base, d, 9, c.counter);
    r, d := PutBytesEntry(r, base, d, 10, c.requestId);
    r, d := PutBytesEntry(r, base, d, 11, c.payloadBinding);
    r, d := PutBoolEntry(r, base, d, 12, c.isRecovery);
    r, d := PutBytesEntry(r, base, d, 13, c.scopeIdentity);
    assert d == done + CapBack(c);
  }

  // ---------------------------------------------------------------- the wire map

  /** What a lookup in an encoded capability returns, key by key. */
  function CapGet(c: Capability, key: u64): Option<Value> {
    match key
    case 1 => Some(Int(c.capFormatVersion))
    case 2 => Some(Int(c.commandOpcode))
    case 3 => if c.treasurySubOp.Some? then Some(Int(c.treasurySubOp.value)) else None
    case 4 => Some(Int(c.keyPurpose))
    case 5 => Some(Int(c.chainId))
    case 6 => Some(Text(c.environmentIdentifier))
    case 7 => Some(Int(c.scopeClass))
    case 8 => Some(Bstr(c.scopeTarget))
    case 9 => Some(Int(c.counter))
    case 10 => Some(Bstr(c.requestId))
    case 11 => Some(Bstr(c.payloadBinding))
    case 12 => Some(Boolean(c.isRecovery))
    case 13 => Some(Bstr(c.scopeIdentity))
    case 14 => Some(Bstr(c.signature))
    case _ => None
  }

  /** The key at index `i` of an encoded capability. */
  function CapKeyAt(c: Capability, i: nat): nat {
    if i < 2 then i + 1 else if c.treasurySubOp.Some? then i + 1 else i + 2
  }

  lemma {:induction false} CapEntryAt(c: Capability, i: nat)
    requires i < |CapEntries(c)|
    ensures |CapEntries(c)| == (if c.treasurySubOp.Some? then 14 else 13)
    ensures CapKeyAt(c, i) <= 14 && CapGet(c, CapKeyAt(c, i)).Some?
    ensures CapEntries(c)[i] == (Int(CapKeyAt(c, i)), CapGet(c, CapKeyAt(c, i)).value)
  {
    var k := if c.treasurySubOp.Some? then 3 else 2;
    if i < 2 {
      assert CapEntries(c)[i] == CapFront(c)[i];
    } else if i < k {
      assert CapEntries(c)[i] == SubOpPairs(c)[i - 2];
    } else if i < k + 10 {
      assert CapEntries(c)[i] == CapBack(c)[i - k];
    }
  }

  lemma {:induction false} CapEntriesStrict(c: Capability)
    ensures var w := CapEntries(c);
            |w| == (if c.treasurySubOp.Some? then 14 else 13) && UintKeysAscend(w) && KeysDistinct(w)
                && StrictKeys(w, CapKey)
  {
    hide CapEntries, CapGet;
    CapEntriesLength(c);
    forall i | 0 <= i < |CapEntries(c)| ensures CapEntries(c)[i].0 == Int(CapKeyAt(c, i)) && CapKeyAt(c, i) <= 14 {
      CapEntryAt(c, i);
    }
    UintKeysDistinct(CapEntries(c));
  }

  lemma {:induction false} CapEntriesLength(c: Capability)
    ensures |CapEntries(c)| == if c.treasurySubOp.Some? then 14 else 13
  {
  }

  lemma {:induction false} CapLookup(c: Capability, key: u64)
    ensures MapGet(CapEntries(c), key) == CapGet(c, key)
  {
    hide MapGet, StrictKeys, UintKeysAscend, CapEntries, CapGet;
    CapEntriesStrict(c);
    var w := CapEntries(c);
    if 1 <= key <= 14 && !(key == 3 && c.treasurySubOp.None?) {
      var i := if key <= 2 || c.treasurySubOp.Some? then key - 1 else key - 2;
      CapEntryAt(c, i);
      MapGetAt(w, i, key);
    } else {
      forall i | 0 <= i < |w| ensures w[i].0 != Int(key) {
        CapEntryAt(c, i);
      }
      AbsentKey(w, key);
      CapGetAbsent(c, key);
    }
  }

  lemma {:induction false} CapGetAbsent(c: Capability, key: u64)
    requires !(1 <= key <= 14) || (key == 3 && c.treasurySubOp.None?)
    ensures CapGet(c, key) == None
  {
  }

  lemma {:induction false} ParseOfCapEntries(c: Capability)
    requires LegalCapability(c)
    ensures ParseCapability(CapEntries(c)) == Ok(c)
  {
    hide MapGet, StrictKeys, UintKeysAscend, CapEntries, ValidEnvironment, ValidScopeTarget;
    CapEntriesStrict(c);
    CapLookup(c, 1);
    CapLookup(c, 2);
    CapLookup(c, 3);
    CapLookup(c, 4);
    CapLookup(c, 5);
    CapLookup(c, 6);
    CapLookup(c, 7);
    CapLookup(c, 8);
    CapLookup(c, 9);
    CapLookup(c, 10);
    CapLookup(c, 11);
    CapLookup(c, 12);
    CapLookup(c, 13);
    CapLookup(c, 14);
  }

  lemma {:induction false} ParsedCapIsLegal(m: entries, c: Capability)
    requires ParseCapability(m) == Ok(c)
    ensures LegalCapability(c)
  {
    hide MapGet, StrictKeys, ValidEnvironment, ValidScopeTarget;
  }

  lemma {:induction false} ParsedCapLookup(m: entries, c: Capability, key: u64)
    requires ParseCapability(m) == Ok(c)
    ensures MapGet(m, key) == CapGet(c, key)
  {
    hide MapGet, StrictKeys, ValidEnvironment, ValidScopeTarget;
    if !(1 <= key <= 14) {
      ForbiddenKey(m, CapKey, key);
    }
  }

  /** Parsing a capability is the exact inverse of emitting one, on maps with ascending keys. */
  lemma {:induction false} CapParseIsInverse(m: entries, c: Capability)
    requires UintKeysAscend(m)
    ensures ParseCapability(m) == Ok(c) <==> LegalCapability(c) && m == CapEntries(c)
  {
    hide MapGet, ParseCapability, CapEntries, CapGet, LegalCapability, UintKeysAscend;
    if ParseCapability(m) == Ok(c) {
      ParsedCapIsLegal(m, c);
      CapEntriesStrict(c);
      forall k: u64 ensures MapGet(m, k) == MapGet(CapEntries(c), k) {
        ParsedCapLookup(m, c, k);
        CapLookup(c, k);
      }
      SameLookupsSameMap(m, CapEntries(c));
    } else if LegalCapability(c) {
      ParseOfCapEntries(c);
    }
  }

  ghost function DecodedCapability(bytes: bytes): Option<Capability> {
    var m := DecodedMap(bytes, MAX_STR_LEN);
    if m.None? then None else match ParseCapability(m.value) case Ok(c) => Some(c) case Err(_) => None
  }

  lemma {:induction false} ParsedCapStrict(m: entries, c: Capability)
    requires ParseCapability(m) == Ok(c)
    ensures StrictKeys(m, CapKey)
  {
    hide StrictKeys, MapGet, ValidEnvironment, ValidScopeTarget;
  }

  lemma {:induction false} CapEntriesLegal(c: Capability)
    requires LegalCapability(c)
    ensures Legal(MapV(CapEntries(c)), 1, MAX_STR_LEN)
  {
    hide CapEntries, ValidUtf8, StrictKeys, UintKeysAscend, ValidEnvironment;
    CapEntriesStrict(c);
    var w := CapEntries(c);
    UintKeysShape(w);
    UintKeysCanonical(w);
    EnvironmentIsUtf8(c.environmentIdentifier);
    forall i | 0 <= i < |w| ensures Legal(w[i].0, 2, MAX_STR_LEN) && Legal(w[i].1, 2, MAX_STR_LEN) {
      CapEntryAt(c, i);
      CapValueLegal(c, CapKeyAt(c, i));
    }
  }

  lemma {:induction false} UintKeysShape(m: entries)
    requires UintKeysAscend(m)
    ensures forall i | 0 <= i < |m| :: m[i].0.Int? && m[i].0.n >= 0
  {
  }

  lemma {:induction false} CapValueLegal(c: Capability, key: u64)
    requires LegalCapability(c) && CapGet(c, key).Some?
    requires |c.environmentIdentifier| <= 64 && ValidUtf8(c.environmentIdentifier)
    ensures Legal(CapGet(c, key).value, 2, MAX_STR_LEN)
  {
    hide ValidUtf8, ValidEnvironment;
  }

  lemma {:induction false} AsciiIsUtf8(s: bytes)
    requires forall i | 0 <= i < |s| :: s[i] <= 0x7F
    ensures ValidUtf8(s)
  {
    if s != [] {
      AsciiIsUtf8(s[1..]);
    }
  }

  lemma {:induction false} EnvironmentIsUtf8(s: bytes)
    requires ValidEnvironment(s)
    ensures |s| <= 64 && ValidUtf8(s)
  {
    AsciiIsUtf8(s);
  }

  /** The byte strings that decode to a capability are exactly the canonical encodings of legal ones. */
  lemma {:induction false} CapWireExact(bytes: bytes, c: Capability)
    ensures DecodedCapability(bytes) == Some(c) <==> LegalCapability(c) && bytes == Encode(MapV(CapEntries(c)))
  {
    hide Legal, ParseCapability, CapEntries, LegalCapability, KeysAscend, StrictKeys;
    if DecodedCapability(bytes) == Some(c) {
      var m := DecodedMap(bytes, MAX_STR_LEN).value;
      ParsedCapStrict(m, c);
      StrictKeysAscend(m, CapKey, MAX_STR_LEN);
      CapParseIsInverse(m, c);
    } else if LegalCapability(c) && bytes == Encode(MapV(CapEntries(c))) {
      CapEntriesLegal(c);
      DecodedMapIs(bytes, CapEntries(c), MAX_STR_LEN);
      ParseOfCapEntries(c);
    }
  }

  lemma {:induction false} CapSignedPairsDetermine(c: Capability, d: Capability)
    requires CapSignedPairs(c) == CapSignedPairs(d)
    ensures c.(signature := d.signature) == d
  {
    hide CapSignedPairs;
    var x, y := CapEntries(c), CapEntries(d.(signature := c.signature));
    CapEntriesPrefix(c);
    CapEntriesPrefix(d.(signature := c.signature));
    CapEntriesPrefix(d);
    SignedPairsIgnoreSignature(d, c.signature);
    assert x == y;
    EqualEntriesEqualCaps(c, d.(signature := c.signature));
  }

  lemma {:induction false} SignedPairsIgnoreSignature(c: Capability, s: bytes64)
    ensures CapSignedPairs(c.(signature := s)) == CapSignedPairs(c)
  {
  }

  lemma {:induction false} CapEntriesPrefix(c: Capability)
    ensures CapEntries(c) == CapSignedPairs(c) + [(Int(14), Bstr(c.signature))]
  {
  }

  lemma {:induction false} EqualEntriesEqualCaps(c: Capability, d: Capability)
    requires CapEntries(c) == CapEntries(d)
    ensures c == d
  {
    hide CapEntries, MapGet;
    forall key: u64 ensures CapGet(c, key) == CapGet(d, key) {
      CapLookup(c, key);
      CapLookup(d, key);
    }
    assert CapGet(c, 1) == CapGet(d, 1) && CapGet(c, 2) == CapGet(d, 2) && CapGet(c, 3) == CapGet(d, 3);
    assert CapGet(c, 4) == CapGet(d, 4) && CapGet(c, 5) == CapGet(d, 5) && CapGet(c, 6) == CapGet(d, 6);
    assert CapGet(c, 7) == CapGet(d, 7) && CapGet(c, 8) == CapGet(d, 8) && CapGet(c, 9) == CapGet(d, 9);
    assert CapGet(c, 10) == CapGet(d, 10) && CapGet(c, 11) == CapGet(d, 11) && CapGet(c, 12) == CapGet(d, 12);
    assert CapGet(c, 13) == CapGet(d, 13) && CapGet(c, 14) == CapGet(d, 14);
  }

  predicate CapStringsFit(c: Capability) {
    |c.environmentIdentifier| <= U64_MAX && |c.scopeTarget| <= U64_MAX && |c.requestId| <= U64_MAX
  }

  lemma {:induction false} CapSignedSized(c: Capability)
    requires CapStringsFit(c)
    ensures Sized(MapV(CapSignedPairs(c)))
  {
    hide Sized;
    var w := CapSignedPairs(c);
    forall i | 0 <= i < |w| ensures LeafSized(w[i].0) && LeafSized(w[i].1) {
      assert CapEntries(c)[i] == w[i];
      CapEntryAt(c, i);
    }
    FlatSized(w);
  }

  /** The preimage determines every signed field. */
  lemma {:induction false} CapPreimageInjective(c: Capability, d: Capability)
    requires CapStringsFit(c) && CapStringsFit(d) && CapPreimage(c) == CapPreimage(d)
    ensures c.(signature := d.signature) == d
  {
    hide Encode, CapSignedPairs, Sized;
    var a, b := Encode(MapV(CapSignedPairs(c))), Encode(MapV(CapSignedPairs(d)));
    SplitAt(CapDomain(), a, CapDomain(), b);
    CapSignedSized(c);
    CapSignedSized(d);
    EncodeInjective(MapV(CapSignedPairs(c)), MapV(CapSignedPairs(d)));
    CapSignedPairsDetermine(c, d);
  }

  /** A capability signature binds the exact wire bytes. */
  lemma {:induction false} CapSignatureBindsWire(b1: bytes, b2: bytes)
    requires DecodedCapability(b1).Some? && DecodedCapability(b2).Some?
    requires var c, d := DecodedCapability(b1).value, DecodedCapability(b2).value;
             CapPreimage(c) == CapPreimage(d) && c.signature == d.signature
    ensures b1 == b2
  {
    hide DecodedCapability, CapPreimage, Encode, CapEntries, ValidEnvironment, ValidScopeTarget;
    var c, d := DecodedCapability(b1).value, DecodedCapability(b2).value;
    CapWireExact(b1, c);
    CapWireExact(b2, d);
    LegalStringsFit(c);
    LegalStringsFit(d);
    CapPreimageInjective(c, d);
  }

  lemma {:induction false} LegalStringsFit(c: Capability)
    requires LegalCapability(c)
    ensures CapStringsFit(c)
  {
  }

  // ---------------------------------------------------------------- verification

  predicate TierOk(c: Capability) {
    match c.commandOpcode
    case 1 => !c.isRecovery
    case 7 => !c.isRecovery
    case 8 => c.isRecovery
    case 6 =>
      (match c.treasurySubOp
       case Some(s) => if s == TREASURY_SUB_OP_RESET_LIFETIME_BREAKER then c.isRecovery else !c.isRecovery
       case None => false)
    case _ => false
  }

  function AuthorityOf(c: Capability, config: KeystoreConfig): bytes32 {
    if c.isRecovery then config.recoveryAuthorityPk else config.adminAuthorityPk
  }

  /** The counter lane a capability draws from. */
  function CapLane(c: Capability, config: KeystoreConfig): Lane {
    Lane(AuthorityOf(c, config), c.scopeClass, c.scopeTarget)
  }

  function SealedScopeId(c: Capability, config: KeystoreConfig): bytes32 {
    if c.scopeClass == 0 then config.enclaveScopeId else config.fleetScopeId
  }

  /** Authentic, and issued for this request on this keystore. */
  predicate CapBound(p: Primitives, c: Capability, opcode: u8, requestId: bytes, config: KeystoreConfig) {
    && TierOk(c)
    && (p.verify)(AuthorityOf(c, config), CapPreimage(c), c.signature)
    && c.commandOpcode == opcode
    && c.requestId == requestId
    && c.chainId == config.twodChainId
    && c.environmentIdentifier == config.environmentIdentifier
    && c.scopeIdentity == SealedScopeId(c, config)
  }

  function CapVerdict(p: Primitives, d: Option<Capability>, opcode: u8, requestId: bytes,
                      config: KeystoreConfig, counters: seq<CounterEntry>): Result<VerifiedCapability, CapError>
  {
    if d.None? || d.value.capFormatVersion != CAP_FORMAT_VERSION then Err(CapMalformed)
    else if !CapBound(p, d.value, opcode, requestId, config) then Err(CapRejected)
    else
      var c := d.value;
      if c.counter != Highest(counters, config.environmentIdentifier, CapLane(c, config)) + 1 then Err(CapRejected)
      else Ok(VerifiedCapability(AuthorityOf(c, config), c.scopeClass, c.scopeTarget, c.counter, c.payloadBinding,
                                 c.keyPurpose, c.treasurySubOp))
  }

  /** `counters.iter().find(..)`, then its counter or 0. */
  method FindHighest(counters: seq<CounterEntry>, env: bytes, lane: Lane) returns (h: u64)
    ensures h == Highest(counters, env, lane)
  {
    for i := 0 to |counters|
      invariant Highest(counters, env, lane) == Highest(counters[i..], env, lane)
    {
      if Matches(counters[i], env, lane) {
        return counters[i].highestAcceptedCounter;
      }
      assert counters[i..][1..] == counters[i + 1..];
    }
    h := 0;
  }

  method VerifyCapability(p: Primitives, m: entries, opcode: u8, requestId: bytes, config: KeystoreConfig,
                          counters: seq<CounterEntry>) returns (r: Result<VerifiedCapability, CapError>)
    ensures r == CapVerdict(p, match ParseCapability(m) case Ok(c) => Some(c) case Err(_) => None,
                            opcode, requestId, config, counters)
  {
    hide CapPreimage, StrictKeys, MapGet, Highest, ValidEnvironment, ValidScopeTarget, ParseCapability;
    CapErrorIsMalformed(m);
    var cap :- ParseCapability(m);
    ParsedCapIsLegal(m, cap);
    LegalStringsFit(cap);
    if cap.capFormatVersion != CAP_FORMAT_VERSION {
      return Err(CapMalformed);
    }
    if !TierOk(cap) {
      return Err(CapRejected);
    }
    var authority := if cap.isRecovery then config.recoveryAuthorityPk else config.adminAuthorityPk;
    var preimage := CapSignedPreimage(cap);
    if !(p.verify)(authority, preimage, cap.signature) {
      return Err(CapRejected);
    }
    if cap.commandOpcode != opcode {
      return Err(CapRejected);
    }
    if cap.requestId != requestId {
      return Err(CapRejected);
    }
    if cap.chainId != config.twodChainId {
      return Err(CapRejected);
    }
    if cap.environmentIdentifier != config.environmentIdentifier {
      return Err(CapRejected);
    }
    var sealedScopeId := if cap.scopeClass == 0 then config.enclaveScopeId else config.fleetScopeId;
    if cap.scopeIdentity != sealedScopeId {
      return Err(CapRejected);
    }
    var highest := FindHighest(counters, cap.environmentIdentifier, Lane(authority, cap.scopeClass, cap.scopeTarget));
    if highest == U64_MAX {
      return Err(CapRejected);
    }
    var expected := highest + 1;
    if cap.counter != expected {
      return Err(CapRejected);
    }
    r := Ok(VerifiedCapability(authority, cap.scopeClass, cap.scopeTarget, cap.counter, cap.payloadBinding,
        cap.keyPurpose,
                               cap.treasurySubOp));
  }

  lemma {:induction false} CapErrorIsMalformed(m: entries)
    ensures ParseCapability(m).Err? ==> ParseCapability(m).error == CapMalformed
  {
    hide StrictKeys, MapGet, ValidEnvironment, ValidScopeTarget;
  }

  /**
    Tier separation: whatever the sub-operation or opcode, the accepted signature is the recovery
    authority's exactly for a restore or a lifetime-breaker reset.
   */
  lemma {:induction false} TierSeparation(p: Primitives, c: Capability, opcode: u8, requestId: bytes,
                                          config: KeystoreConfig, counters: seq<CounterEntry>)
    requires CapVerdict(p, Some(c), opcode, requestId, config, counters).Ok?
    ensures var v := CapVerdict(p, Some(c), opcode, requestId, config, counters).value;
            && (p.verify)(v.authority, CapPreimage(c), c.signature)
            && (c.isRecovery <==> opcode == OPCODE_RESTORE_BACKUP
                                  || (opcode == OPCODE_CONFIGURE_TREASURY
                                      && v.treasurySubOp == Some(TREASURY_SUB_OP_RESET_LIFETIME_BREAKER)))
            && v.authority == AuthorityOf(c, config)
            && opcode in {OPCODE_GENERATE_KEYS, OPCODE_CONFIGURE_TREASURY, OPCODE_EXPORT_BACKUP, OPCODE_RESTORE_BACKUP}
  {
    hide CapPreimage, Highest;
  }

  /**
    Acceptance of wire bytes, spelled out: they are the canonical encoding of an in-range version-2
    capability for this opcode, request and keystore, with the next counter of its lane, signed by the
    recovery authority exactly for a restore or a lifetime-breaker reset and by the admin otherwise.
   */
  lemma {:induction false} CapAcceptsExactly(p: Primitives, bytes: bytes, opcode: u8, requestId: bytes,
      config: KeystoreConfig, counters: seq<CounterEntry>, v: VerifiedCapability)
    ensures CapVerdict(p, DecodedCapability(bytes), opcode, requestId, config, counters) == Ok(v) <==>
            exists c :: && LegalCapability(c) && bytes == Encode(MapV(CapEntries(c)))
                        && c.capFormatVersion == CAP_FORMAT_VERSION
                        && c.commandOpcode == opcode && c.requestId == requestId
                        && c.chainId == config.twodChainId && c.environmentIdentifier == config.environmentIdentifier
                        && c.scopeIdentity == SealedScopeId(c, config)
                        && (c.isRecovery <==> opcode == OPCODE_RESTORE_BACKUP
                                              || (opcode == OPCODE_CONFIGURE_TREASURY
                                                  && c.treasurySubOp == Some(TREASURY_SUB_OP_RESET_LIFETIME_BREAKER)))
                        && (p.verify)(AuthorityOf(c, config), CapPreimage(c), c.signature)
                        && c.counter == Highest(counters, config.environmentIdentifier, CapLane(c, config)) + 1
                        && v == VerifiedCapability(AuthorityOf(c, config), c.scopeClass, c.scopeTarget, c.counter,
                                                   c.payloadBinding, c.keyPurpose, c.treasurySubOp)
  {
    hide CapPreimage, Highest, Encode, CapEntries, DecodedCapability, ValidEnvironment, ValidScopeTarget;
    var d := DecodedCapability(bytes);
    if CapVerdict(p, d, opcode, requestId, config, counters) == Ok(v) {
      CapWireExact(bytes, d.value);
      TierSeparation(p, d.value, opcode, requestId, config, counters);
    }
    forall c | LegalCapability(c) && bytes == Encode(MapV(CapEntries(c))) ensures d == Some(c) {
      CapWireExact(bytes, c);
    }
  }

  /**
    One-shot acceptance: once its counter has been committed, a capability is rejected against every
    later table, that is every table whose lane has not gone back below it.
   */
  lemma {:induction false} AcceptedOnce(p: Primitives, c: Capability, opcode: u8, requestId: bytes,
                                        config: KeystoreConfig, before: seq<CounterEntry>, after: seq<CounterEntry>,
                                        opcode': u8, requestId': bytes)
    requires CapVerdict(p, Some(c), opcode, requestId, config, before).Ok?
    requires var env, lane := config.environmentIdentifier, CapLane(c, config);
             var t := AdvancedCounters(before, env, lane, c.counter);
             t.Ok? && Highest(after, env, lane) >= Highest(t.value, env, lane)
    ensures CapVerdict(p, Some(c), opcode', requestId', config, after).Err?
    ensures Highest(before, config.environmentIdentifier, CapLane(c, config)) < c.counter
  {
    hide CapPreimage, Highest, AdvancedCounters;
    var env, lane := config.environmentIdentifier, CapLane(c, config);
    AdvanceMovesOneLane(before, env, lane, c.counter, env, lane);
  }
}
