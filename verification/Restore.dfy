/**
  Restore: which keys a backup carries and in what order, the checks that admit a restore, and the
  in-place transition that must never lower a counter or a spend.
 */
module Restore {
  import opened Wrappers
  import opened Bytes
  import opened Cbor
  import opened Crypto
  import opened Keystore
  import opened Marks
  import opened Positional

  datatype RestoreConfigSubset = RestoreConfigSubset(
    twodChainId: u64,
    environmentIdentifier: bytes,
    adminAuthorityPk: bytes32,
    recoveryAuthorityPk: bytes32,
    monotonicTreasuryConfigVersion: u64,
    authorityEpoch: u64)

  datatype RestoreIngressData = RestoreIngressData(
    config: RestoreConfigSubset,
    entries: seq<KeyEntry>,
    counters: seq<CounterEntry>,
    faucet: FaucetState,
    strictRecoveryCounter: u64,
    auditRecords: seq<AuditRecord>)

  // ---------------------------------------------------------------- key selection and manifest

  function Refs(entries: seq<KeyEntry>): (refs: seq<bytes32>)
    ensures |refs| == |entries| && forall i | 0 <= i < |refs| :: refs[i] == entries[i].keyRef
  {
    if entries == [] then [] else [entries[0].keyRef] + Refs(entries[1..])
  }

  /** `selected_key_refs`: the body's refs that were requested, in body order. */
  function SelectedKeyRefs(entries: seq<KeyEntry>, requested: seq<bytes32>): seq<bytes32> {
    if entries == [] then []
    else if entries[0].keyRef in requested then [entries[0].keyRef] + SelectedKeyRefs(entries[1..], requested)
    else SelectedKeyRefs(entries[1..], requested)
  }

  function FindEntry(entries: seq<KeyEntry>, ref: bytes32): (r: Option<KeyEntry>)
    ensures r.Some? ==> r.value in entries && r.value.keyRef == ref
    ensures r.None? ==> ref !in Refs(entries)
  {
    if entries == [] then None
    else if entries[0].keyRef == ref then Some(entries[0])
    else FindEntry(entries[1..], ref)
  }

  /** The selection is exactly the requested refs the body has. */
  lemma {:induction false} SelectionIsIntersection(entries: seq<KeyEntry>, requested: seq<bytes32>, ref: bytes32)
    ensures ref in SelectedKeyRefs(entries, requested) <==> ref in requested && ref in Refs(entries)
  {
    if entries != [] {
      SelectionIsIntersection(entries[1..], requested, ref);
    }
  }

  /** The payload's entries, one per ref and in the refs' order; fails on a ref the body lacks. */
  method PayloadEntries(body: KeystoreBody, ordered: seq<bytes32>) returns (r: Option<seq<KeyEntry>>)
    ensures r.Some? <==> forall i | 0 <= i < |ordered| :: ordered[i] in Refs(body.entries)
    ensures r.Some? ==> Refs(r.value) == ordered && forall e | e in r.value :: e in body.entries
  {
    hide Refs, FindEntry;
    var entries: seq<KeyEntry> := [];
    NoRefs();
    for i := 0 to |ordered|
      invariant |entries| == i && Refs(entries) == ordered[..i]
      invariant forall j | 0 <= j < i :: ordered[j] in Refs(body.entries)
      invariant forall e | e in entries :: e in body.entries
    {
      var e := FindEntry(body.entries, ordered[i]);
      if e.None? {
        return None;
      }
      EntryHasRef(body.entries, e.value);
      RefsSnoc(entries, e.value);
      entries := entries + [e.value];
    }
    assert ordered[..|ordered|] == ordered;
    r := Some(entries);
  }

  lemma {:induction false} NoRefs()
    ensures Refs([]) == []
  {
  }

  lemma {:induction false} RefsSnoc(entries: seq<KeyEntry>, e: KeyEntry)
    ensures Refs(entries + [e]) == Refs(entries) + [e.keyRef]
  {
    var all := entries + [e];
    assert forall i | 0 <= i < |all| :: Refs(all)[i] == all[i].keyRef;
  }

  lemma {:induction false} EntryHasRef(entries: seq<KeyEntry>, e: KeyEntry)
    requires e in entries
    ensures e.keyRef in Refs(entries)
  {
    var i :| 0 <= i < |entries| && entries[i] == e;
    assert Refs(entries)[i] == e.keyRef;
  }

  /** Exporting a selection always succeeds, and the payload's order is the manifest's order. */
  lemma {:induction false} SelectionIsExportable(entries: seq<KeyEntry>, requested: seq<bytes32>)
    ensures forall ref | ref in SelectedKeyRefs(entries, requested) :: ref in Refs(entries)
  {
    forall ref | ref in SelectedKeyRefs(entries, requested) ensures ref in Refs(entries) {
      SelectionIsIntersection(entries, requested, ref);
    }
  }

  function RefValues(refs: seq<bytes32>): (vs: seq<Value>)
    ensures |vs| == |refs| && forall i | 0 <= i < |refs| :: vs[i] == Bstr(refs[i])
  {
    if refs == [] then [] else [Bstr(refs[0])] + RefValues(refs[1..])
  }

  function ManifestOf(refs: seq<bytes32>): bytes {
    Encode(Arr(RefValues(refs)))
  }

  /** The manifest determines the exported refs and their order. */
  lemma {:induction false} ManifestInjective(a: seq<bytes32>, b: seq<bytes32>)
    requires |a| <= U64_MAX && |b| <= U64_MAX && ManifestOf(a) == ManifestOf(b)
    ensures a == b
  {
    EncodeInjective(Arr(RefValues(a)), Arr(RefValues(b)));
    forall i | 0 <= i < |a| ensures a[i] == b[i] {
      assert RefValues(a)[i] == RefValues(b)[i];
    }
  }

  // ---------------------------------------------------------------- selector match

  function InsertRef(x: bytes32, xs: seq<bytes32>): seq<bytes32> {
    if xs == [] || LessEq(x, xs[0]) then [x] + xs else [xs[0]] + InsertRef(x, xs[1..])
  }

  /** `sort_unstable` on 32-byte refs. */
  function SortRefs(xs: seq<bytes32>): seq<bytes32> {
    if xs == [] then [] else InsertRef(xs[0], SortRefs(xs[1..]))
  }

  /** `dedup`: drop every element equal to its predecessor. */
  function Dedup(xs: seq<bytes32>): seq<bytes32> {
    if |xs| <= 1 then xs
    else if xs[0] == xs[1] then Dedup(xs[1..])
    else [xs[0]] + Dedup(xs[1..])
  }

  predicate RefsAscend(xs: seq<bytes32>) {
    forall i | 0 <= i < |xs| - 1 :: LessEq(xs[i], xs[i + 1])
  }

  predicate RefsStrictlyAscend(xs: seq<bytes32>) {
    forall i | 0 <= i < |xs| - 1 :: Less(xs[i], xs[i + 1])
  }

  lemma {:induction false} InsertRefSorts(x: bytes32, xs: seq<bytes32>)
    requires RefsAscend(xs)
    ensures var r := InsertRef(x, xs);
            && RefsAscend(r) && r != [] && (r[0] == x || (xs != [] && r[0] == xs[0]))
            && forall y: bytes32 :: y in r <==> y == x || y in xs
  {
    if xs != [] && !LessEq(x, xs[0]) {
      LessTotal(x, xs[0]);
      InsertRefSorts(x, xs[1..]);
      var r, t := InsertRef(x, xs), InsertRef(x, xs[1..]);
      assert r == [xs[0]] + t && xs == [xs[0]] + xs[1..];
      forall i | 0 <= i < |r| - 1 ensures LessEq(r[i], r[i + 1]) {
        if i > 0 {
          assert r[i] == t[i - 1] && r[i + 1] == t[i - 1 + 1];
        }
      }
    }
  }

  lemma {:induction false} SortRefsSorts(xs: seq<bytes32>)
    ensures RefsAscend(SortRefs(xs))
    ensures forall y: bytes32 :: y in SortRefs(xs) <==> y in xs
  {
    if xs != [] {
      SortRefsSorts(xs[1..]);
      InsertRefSorts(xs[0], SortRefs(xs[1..]));
      assert xs == [xs[0]] + xs[1..];
    }
  }

  lemma {:induction false} DedupStrict(xs: seq<bytes32>)
    requires RefsAscend(xs)
    ensures var r := Dedup(xs);
            && RefsStrictlyAscend(r) && (xs != [] ==> r != [] && r[0] == xs[0])
            && forall y: bytes32 :: y in r <==> y in xs
  {
    if |xs| > 1 {
      assert LessEq(xs[0], xs[0 + 1]);
      DedupStrict(xs[1..]);
      assert xs == [xs[0]] + xs[1..];
      if xs[0] != xs[1] {
        var r, t := Dedup(xs), Dedup(xs[1..]);
        assert r == [xs[0]] + t;
        forall i | 0 <= i < |r| - 1 ensures Less(r[i], r[i + 1]) {
          if i > 0 {
            assert r[i] == t[i - 1] && r[i + 1] == t[i - 1 + 1];
          }
        }
      }
    }
  }

  lemma {:induction false} HeadIsLeast(xs: seq<bytes32>, i: nat)
    requires RefsStrictlyAscend(xs) && 0 < i < |xs|
    ensures Less(xs[0], xs[i])
  {
    if i > 1 {
      HeadIsLeast(xs, i - 1);
      assert Less(xs[i - 1], xs[i - 1 + 1]);
      LessTransitive(xs[0], xs[i - 1], xs[i]);
    }
  }

  lemma {:induction false} EmptyTogether(a: seq<bytes32>, b: seq<bytes32>)
    requires forall y: bytes32 :: y in a <==> y in b
    ensures a == [] <==> b == []
  {
    if a != [] {
      assert a[0] in b;
    }
    if b != [] {
      assert b[0] in a;
    }
  }

  /** Strictly ascending sequences with the same elements are equal. */
  lemma {:induction false} SameSetSameSeq(a: seq<bytes32>, b: seq<bytes32>)
    requires RefsStrictlyAscend(a) && RefsStrictlyAscend(b)
    requires forall y: bytes32 :: y in a <==> y in b
    ensures a == b
  {
    EmptyTogether(a, b);
    if a != [] {
      SameHead(a, b);
      forall y: bytes32 ensures y in a[1..] <==> y in b[1..] {
        TailMembers(a, y);
        TailMembers(b, y);
      }
      SameSetSameSeq(a[1..], b[1..]);
      assert a == [a[0]] + a[1..] && b == [b[0]] + b[1..];
    }
  }

  lemma {:induction false} TailMembers(a: seq<bytes32>, y: bytes32)
    requires RefsStrictlyAscend(a) && a != []
    ensures y in a[1..] <==> y in a && y != a[0]
  {
    assert a == [a[0]] + a[1..];
    LessIrreflexive(a[0]);
    if y in a[1..] {
      var i :| 0 <= i < |a[1..]| && a[1..][i] == y;
      HeadIsLeast(a, i + 1);
    }
  }

  lemma {:induction false} SameHead(a: seq<bytes32>, b: seq<bytes32>)
    requires RefsStrictlyAscend(a) && RefsStrictlyAscend(b) && a != [] && b != []
    requires forall y: bytes32 :: y in a <==> y in b
    ensures a[0] == b[0]
  {
    assert a[0] in b && b[0] in a;
    var i :| 0 <= i < |b| && b[i] == a[0];
    var j :| 0 <= j < |a| && a[j] == b[0];
    if i > 0 && j > 0 {
      HeadIsLeast(b, i);
      HeadIsLeast(a, j);
      LessAsymmetric(a[0], b[0]);
    }
  }

  predicate SelectorMatches(requested: seq<bytes32>, payload: seq<bytes32>) {
    Dedup(SortRefs(requested)) == Dedup(SortRefs(payload))
  }

  /** Sort-then-dedup comparison is set equality: order and multiplicity of a selector do not matter. */
  lemma {:induction false} SelectorMatchIsSetEquality(a: seq<bytes32>, b: seq<bytes32>)
    ensures SelectorMatches(a, b) <==> forall y: bytes32 :: y in a <==> y in b
  {
    SortRefsSorts(a);
    SortRefsSorts(b);
    DedupStrict(SortRefs(a));
    DedupStrict(SortRefs(b));
    if forall y: bytes32 :: y in a <==> y in b {
      SameSetSameSeq(Dedup(SortRefs(a)), Dedup(SortRefs(b)));
    }
    if SelectorMatches(a, b) {
      forall y: bytes32 ensures y in a <==> y in b {
        assert y in Dedup(SortRefs(a)) <==> y in Dedup(SortRefs(b));
      }
    }
  }

  /**
    A restore selector passes against an exported payload exactly when it names the export selector's
    refs that the exporting body had.
   */
  lemma {:induction false} RestoreSelectorExact(body: KeystoreBody, exported: seq<bytes32>, restored: seq<bytes32>)
    ensures SelectorMatches(restored, SelectedKeyRefs(body.entries, exported)) <==>
            forall y: bytes32 :: y in restored <==> y in exported && y in Refs(body.entries)
  {
    var sel := SelectedKeyRefs(body.entries, exported);
    SelectorMatchIsSetEquality(restored, sel);
    forall y: bytes32 ensures y in sel <==> y in exported && y in Refs(body.entries) {
      SelectionIsIntersection(body.entries, exported, y);
    }
  }

  // ---------------------------------------------------------------- admission

  function ManifestHashDomain(): bytes {
    Ascii("2d-hsm-agent-restore-ingress-v1") + Ascii("-manifest-hash\0")
  }

  function BackupDigestDomain(): bytes {
    Ascii("2d-hsm-agent-restore-ingress-v1") + Ascii("-backup-digest\0")
  }

  function ManifestHash(p: Primitives, manifest: bytes): bytes32 {
    (p.sha3)(ManifestHashDomain() + manifest)
  }

  function OriginalBackupDigest(p: Primitives, blob: bytes): bytes32 {
    (p.sha3)(BackupDigestDomain() + blob)
  }

  /** The authenticated header fields of an opened ingress envelope. */
  datatype OpenedRestoreIngress = OpenedRestoreIngress(
    destMeasurement: bytes,
    chainId: u64,
    environmentIdentifier: bytes,
    manifestHash: bytes32,
    originalBackupDigest: bytes32)

  datatype RestoreVerifyError =
    | MeasurementMismatch
    | ChainMismatch
    | EnvironmentMismatch
    | BackupDigestMismatch
    | ManifestMismatch
    | SelectorSetMismatch

  /** Everything an admitted restore must satisfy. */
  ghost predicate Admissible(p: Primitives, o: OpenedRestoreIngress, data: RestoreIngressData, blob: bytes,
                             requested: seq<bytes32>, measurement: bytes, chainId: u64, env: bytes)
  {
    && o.destMeasurement == measurement
    && o.chainId == chainId == data.config.twodChainId
    && o.environmentIdentifier == env == data.config.environmentIdentifier
    && o.originalBackupDigest == OriginalBackupDigest(p, blob)
    && o.manifestHash == ManifestHash(p, ManifestOf(Refs(data.entries)))
    && forall y: bytes32 :: y in requested <==> y in Refs(data.entries)
  }

  /** What a refusal reports: the envelope's identity before the payload's, identities before digests. */
  function FirstMismatch(p: Primitives, o: OpenedRestoreIngress, data: RestoreIngressData, blob: bytes,
                         measurement: bytes, chainId: u64, env: bytes): RestoreVerifyError
  {
    if o.destMeasurement != measurement then MeasurementMismatch
    else if o.chainId != chainId then ChainMismatch
    else if o.environmentIdentifier != env then EnvironmentMismatch
    else if data.config.twodChainId != chainId then ChainMismatch
    else if data.config.environmentIdentifier != env then EnvironmentMismatch
    else if o.originalBackupDigest != OriginalBackupDigest(p, blob) then BackupDigestMismatch
    else if o.manifestHash != ManifestHash(p, ManifestOf(Refs(data.entries))) then ManifestMismatch
    else SelectorSetMismatch
  }

  method VerifyRestoreIngress(p: Primitives, o: OpenedRestoreIngress, data: RestoreIngressData, blob: bytes,
                              requested: seq<bytes32>, measurement: bytes, chainId: u64, env: bytes)
    returns (r: Result<(), RestoreVerifyError>)
    ensures r.Ok? <==> Admissible(p, o, data, blob, requested, measurement, chainId, env)
    ensures r.Err? ==> r.error == FirstMismatch(p, o, data, blob, measurement, chainId, env)
  {
    hide ManifestOf, SelectorMatches;
    if o.destMeasurement != measurement {
      return Err(MeasurementMismatch);
    }
    if o.chainId != chainId {
      return Err(ChainMismatch);
    }
    if o.environmentIdentifier != env {
      return Err(EnvironmentMismatch);
    }
    if data.config.twodChainId != chainId {
      return Err(ChainMismatch);
    }
    if data.config.environmentIdentifier != env {
      return Err(EnvironmentMismatch);
    }
    if o.originalBackupDigest != OriginalBackupDigest(p, blob) {
      return Err(BackupDigestMismatch);
    }
    var payloadRefs := Refs(data.entries);
    if o.manifestHash != ManifestHash(p, ManifestOf(payloadRefs)) {
      return Err(ManifestMismatch);
    }
    var reqSet := Dedup(SortRefs(requested));
    var paySet := Dedup(SortRefs(payloadRefs));
    SelectorMatchIsSetEquality(requested, payloadRefs);
    SelectorUnfolded(requested, payloadRefs);
    if reqSet != paySet {
      return Err(SelectorSetMismatch);
    }
    r := Ok(());
  }

  lemma {:induction false} SelectorUnfolded(a: seq<bytes32>, b: seq<bytes32>)
    ensures SelectorMatches(a, b) <==> Dedup(SortRefs(a)) == Dedup(SortRefs(b))
  {
  }

  // ---------------------------------------------------------------- the high-water attestation

  function RecoveryHighWaterDomain(): bytes {
    Ascii("2d-hsm-restore-high-water-v1\0")
  }

  /** Length prefixes are truncating casts: `BE` reduces modulo the prefix width. */
  function RecoveryPreimage(chainId: u64, env: bytes, requestId: bytes, marks: bytes): bytes {
    RecoveryHighWaterDomain()
    + (BE(8, chainId) + (BE(2, |env|) + (env + (BE(2, |requestId|) + (requestId + (BE(4, |marks|) + marks))))))
  }

  method RecoveryHighWaterPreimage(chainId: u64, env: bytes, requestId: bytes, marks: bytes) returns (p: bytes)
    ensures p == RecoveryPreimage(chainId, env, requestId, marks)
  {
    hide BE;
    p := RecoveryHighWaterDomain();
    p := p + BE(8, chainId);
    p := p + BE(2, |env|);
    p := p + env;
    p := p + BE(2, |requestId|);
    p := p + requestId;
    p := p + BE(4, |marks|);
    p := p + marks;
    var d, c, e1, e2, r1, r2, m1 := RecoveryHighWaterDomain(), BE(8, chainId), BE(2, |env|), env, BE(2, |requestId|),
        requestId, BE(4, |marks|);
    Flatten(d, c, e1, e2, r1, r2, m1, marks);
  }

  lemma {:induction false} Flatten(a: bytes, b: bytes, c: bytes, d: bytes, e: bytes, f: bytes, g: bytes, h: bytes)
    ensures a + b + c + d + e + f + g + h == a + (b + (c + (d + (e + (f + (g + h))))))
  {
  }

  lemma {:induction false} SameLength(width: nat, m: nat, n: nat)
    requires m < Pow256(width) && n < Pow256(width) && BE(width, m) == BE(width, n)
    ensures m == n
  {
    FromBEOfBE(width, m);
    FromBEOfBE(width, n);
  }

  /** A length-prefixed field is self-delimiting while its length fits the prefix. */
  lemma {:induction false} PrefixedField(width: nat, x: bytes, s: bytes, y: bytes, t: bytes)
    requires |x| < Pow256(width) && |y| < Pow256(width)
    requires BE(width, |x|) + (x + s) == BE(width, |y|) + (y + t)
    ensures x == y && s == t
  {
    hide BE;
    SplitAt(BE(width, |x|), x + s, BE(width, |y|), y + t);
    SameLength(width, |x|, |y|);
    SplitAt(x, s, y, t);
  }

  /** The prefixed lengths that survive the cast; the marks come last, so their length is free. */
  predicate RecoveryFits(env: bytes, requestId: bytes) {
    |env| <= U16_MAX && |requestId| <= U16_MAX
  }

  /** Within the 16-bit prefixes the preimage determines all four fields, marks of any length included. */
  lemma {:induction false} RecoveryPreimageInjective(c1: u64, e1: bytes, r1: bytes, m1: bytes, c2: u64, e2: bytes,
      r2: bytes, m2: bytes)
    requires RecoveryFits(e1, r1) && RecoveryFits(e2, r2)
    requires RecoveryPreimage(c1, e1, r1, m1) == RecoveryPreimage(c2, e2, r2, m2)
    ensures c1 == c2 && e1 == e2 && r1 == r2 && m1 == m2
  {
    hide BE, Pow256;
    Pow256Values();
    var d := RecoveryHighWaterDomain();
    var z1, z2 := BE(4, |m1|) + m1, BE(4, |m2|) + m2;
    var y1, y2 := BE(2, |r1|) + (r1 + z1), BE(2, |r2|) + (r2 + z2);
    var x1, x2 := BE(2, |e1|) + (e1 + y1), BE(2, |e2|) + (e2 + y2);
    SplitAt(d, BE(8, c1) + x1, d, BE(8, c2) + x2);
    SplitAt(BE(8, c1), x1, BE(8, c2), x2);
    SameLength(8, c1, c2);
    PrefixedField(2, e1, y1, e2, y2);
    PrefixedField(2, r1, z1, r2, z2);
    SplitAt(BE(4, |m1|), m1, BE(4, |m2|), m2);
  }

  /**
    What the restore handler can sign over: the sealed environment and an envelope's request id. They
    fit, so among the preimages it can build, equal ones agree in all four fields.
   */
  lemma {:induction false} HandlerPreimagesBind(b1: KeystoreBody, r1: bytes, m1: bytes, b2: KeystoreBody, r2: bytes,
      m2: bytes)
    requires ValidBody(b1) && ValidBody(b2) && |r1| <= MAX_REQUEST_ID_LEN && |r2| <= MAX_REQUEST_ID_LEN
    ensures var (c1, e1) := (b1.config.twodChainId, b1.config.environmentIdentifier);
            var (c2, e2) := (b2.config.twodChainId, b2.config.environmentIdentifier);
            && RecoveryFits(e1, r1) && RecoveryFits(e2, r2)
            && (RecoveryPreimage(c1, e1, r1, m1) == RecoveryPreimage(c2, e2, r2, m2) <==>
                c1 == c2 && e1 == e2 && r1 == r2 && m1 == m2)
  {
    hide RecoveryPreimage, ValidEntries, ValidCounters, ValidAudit;
    var (c1, e1) := (b1.config.twodChainId, b1.config.environmentIdentifier);
    var (c2, e2) := (b2.config.twodChainId, b2.config.environmentIdentifier);
    if RecoveryPreimage(c1, e1, r1, m1) == RecoveryPreimage(c2, e2, r2, m2) {
      RecoveryPreimageInjective(c1, e1, r1, m1, c2, e2, r2, m2);
    }
  }

  function Zeros(n: nat): (z: bytes)
    ensures |z| == n
  {
    seq(n, _ => 0)
  }

  /** A 65536-byte environment has length prefix zero, so its bytes can pass for the rest of a preimage. */
  lemma {:induction false} LongEnvironmentCollides(chainId: u64) returns (env: bytes)
    ensures |env| == U16_MAX + 1
    ensures RecoveryPreimage(chainId, env, [], []) == RecoveryPreimage(chainId, [], [], Zeros(0x1_0000))
  {
    var none: bytes, start: bytes, six: bytes := [], [0, 0, 0, 1, 0, 0], [0, 0, 0, 0, 0, 0];
    var zeros := Zeros(0x1_0000);
    env := start + zeros[6..];
    BEOf65536();
    hide BE;
    assert env + (BE(2, 0) + (none + (BE(4, 0) + none))) == env + six;
    assert zeros[6..] + six == zeros;
    assert env + six == start + zeros;
    assert none + (BE(2, 0) + (none + (BE(4, 0x1_0000) + zeros))) == start + zeros;
  }

  /** So can those of a 65536-byte request id. */
  lemma {:induction false} LongRequestIdCollides(chainId: u64) returns (requestId: bytes)
    ensures |requestId| == U16_MAX + 1
    ensures RecoveryPreimage(chainId, [], requestId, []) == RecoveryPreimage(chainId, [], [], Zeros(0x1_0000))
  {
    var none: bytes, start: bytes, four: bytes := [], [0, 1, 0, 0], [0, 0, 0, 0];
    var zeros := Zeros(0x1_0000);
    requestId := start + zeros[4..];
    BEOf65536();
    hide BE;
    assert requestId + (BE(4, 0) + none) == requestId + four;
    assert zeros[4..] + four == zeros;
    assert requestId + four == start + zeros;
    assert none + (BE(4, 0x1_0000) + zeros) == start + zeros;
  }

  /** No two field tuples with environments and request ids up to these lengths share a preimage. */
  ghost predicate Unambiguous(maxEnv: nat, maxRequestId: nat) {
    forall c1: u64, e1: bytes, r1: bytes, m1: bytes, c2: u64, e2: bytes, r2: bytes, m2: bytes
      | |e1| <= maxEnv && |e2| <= maxEnv && |r1| <= maxRequestId && |r2| <= maxRequestId
        && RecoveryPreimage(c1, e1, r1, m1) == RecoveryPreimage(c2, e2, r2, m2)
      :: c1 == c2 && e1 == e2 && r1 == r2 && m1 == m2
  }

  /** The preimage is unambiguous exactly for callers that keep both fields within 65535 bytes. */
  lemma {:induction false} RecoveryPreimageExact(maxEnv: nat, maxRequestId: nat)
    ensures Unambiguous(maxEnv, maxRequestId) <==> maxEnv <= U16_MAX && maxRequestId <= U16_MAX
  {
    hide RecoveryPreimage;
    if maxEnv > U16_MAX {
      var env := LongEnvironmentCollides(0);
    } else if maxRequestId > U16_MAX {
      var requestId := LongRequestIdCollides(0);
    } else {
      forall c1: u64, e1: bytes, r1: bytes, m1: bytes, c2: u64, e2: bytes, r2: bytes, m2: bytes
        | |e1| <= maxEnv && |e2| <= maxEnv && |r1| <= maxRequestId && |r2| <= maxRequestId
          && RecoveryPreimage(c1, e1, r1, m1) == RecoveryPreimage(c2, e2, r2, m2)
        ensures c1 == c2 && e1 == e2 && r1 == r2 && m1 == m2
      {
        RecoveryPreimageInjective(c1, e1, r1, m1, c2, e2, r2, m2);
      }
    }
  }

  lemma {:induction false} BEOf65536()
    ensures BE(2, 0x1_0000) == [0, 0] && BE(4, 0x1_0000) == [0, 1, 0, 0]
    ensures BE(2, 0) == [0, 0] && BE(4, 0) == [0, 0, 0, 0]
  {
    assert BE(2, 0) == [0, 0] && BE(3, 0) == [0, 0, 0];
    assert BE(1, 0x100) == [0] && BE(2, 0x1_0000) == BE(1, 0x100) + [0];
    assert BE(1, 0) == [0];
    assert BE(2, 1) == [0, 1];
    assert BE(3, 0x100) == [0, 1, 0];
  }

  datatype RecoveryHighWater = RecoveryHighWater(marksPayload: bytes, signature: bytes64)

  datatype RecoveryHighWaterError = SignatureInvalid | MalformedMarks

  predicate RecoverySigned(p: Primitives, h: RecoveryHighWater, chainId: u64, env: bytes, requestId: bytes,
      pk: bytes32) {
    (p.verify)(pk, RecoveryPreimage(chainId, env, requestId, h.marksPayload), h.signature)
  }

  /** Success hands out exactly the marks that the recovery authority signed for this ceremony. */
  method VerifyRecoveryHighWater(p: Primitives, h: RecoveryHighWater, chainId: u64, env: bytes, requestId: bytes,
      pk: bytes32)
    returns (r: Result<DecodedMarks, RecoveryHighWaterError>)
    ensures forall m :: r == Ok(m) <==>
              RecoverySigned(p, h, chainId, env, requestId, pk) && MarksBytes(h.marksPayload, m, MAX_COUNTER_ENTRIES)
    ensures r == Err(SignatureInvalid) <==> !RecoverySigned(p, h, chainId, env, requestId, pk)
  {
    hide MarksBytes, RecoveryPreimage;
    var preimage := RecoveryHighWaterPreimage(chainId, env, requestId, h.marksPayload);
    if !(p.verify)(pk, preimage, h.signature) {
      return Err(SignatureInvalid);
    }
    var m := StrictDecodeMarksPayload(h.marksPayload, MAX_COUNTER_ENTRIES);
    r := if m.Some? then Ok(m.value) else Err(MalformedMarks);
  }

  // ---------------------------------------------------------------- the forward-only gate

  method CheckHighWaterDominates(high: DecodedMarks, counters: seq<CounterEntry>, cumulative: bytes32,
      lifetime: bytes32)
    returns (ok: bool)
    ensures ok <==> HighWaterDominates(high, counters, cumulative, lifetime)
  {
    for i := 0 to |counters|
      invariant forall j | 0 <= j < i :: RowCovered(high.rows, counters[j])
    {
      match FindRow(high.rows, LaneOf(counters[i]))
      case Some(r) =>
        if r.highestAcceptedCounter < counters[i].highestAcceptedCounter {
          return false;
        }
      case None =>
        return false;
    }
    ok := LessEq(cumulative, high.cumulativeNativeSpend) && LessEq(lifetime, high.lifetimeSpend);
  }

  datatype Ac6Error = StaleBackup | WouldLower

  predicate BackupCovered(data: RestoreIngressData, high: DecodedMarks) {
    HighWaterDominates(high, data.counters, data.faucet.cumulativeNativeSpend, data.faucet.lifetimeSpend)
  }

  predicate BodyCovered(b: KeystoreBody, high: DecodedMarks) {
    HighWaterDominates(high, b.counters, b.faucet.cumulativeNativeSpend, b.faucet.lifetimeSpend)
  }

  method VerifyAc6HighWater(before: KeystoreBody, data: RestoreIngressData, high: DecodedMarks)
      returns (r: Result<(), Ac6Error>)
    ensures r == if !BackupCovered(data, high) then Err(StaleBackup) else if !BodyCovered(before, high)
        then Err(WouldLower) else Ok(())
  {
    var current := CheckHighWaterDominates(high, data.counters, data.faucet.cumulativeNativeSpend,
        data.faucet.lifetimeSpend);
    if !current {
      return Err(StaleBackup);
    }
    var forward := CheckHighWaterDominates(high, before.counters, before.faucet.cumulativeNativeSpend,
        before.faucet.lifetimeSpend);
    if !forward {
      return Err(WouldLower);
    }
    r := Ok(());
  }

  // ---------------------------------------------------------------- applying a restore

  datatype RestoreApplyError = AuditCapacityOverflow | RestoreOverflow

  function MaxSeq(records: seq<AuditRecord>): (m: u64)
    requires records != []
    ensures forall i | 0 <= i < |records| :: records[i].seqNo <= m
    ensures exists i :: 0 <= i < |records| && records[i].seqNo == m
  {
    if |records| == 1 then
      assert records[0].seqNo == records[0].seqNo;
      records[0].seqNo
    else
      var t := MaxSeq(records[1..]);
      assert exists i :: 0 <= i < |records| && records[i].seqNo == if records[0].seqNo >= t
          then records[0].seqNo else t by {
        var j :| 0 <= j < |records[1..]| && records[1..][j].seqNo == t;
        assert records[j + 1].seqNo == t;
        assert records[0].seqNo == records[0].seqNo;
      }
      assert forall i | 0 < i < |records| :: records[i] == records[1..][i - 1];
      if records[0].seqNo >= t then records[0].seqNo else t
  }

  function Max(a: u64, b: u64): u64 {
    if a >= b then a else b
  }

  function RestoredConfig(c: KeystoreConfig, d: RestoreConfigSubset): KeystoreConfig {
    c.(twodChainId := d.twodChainId,
       environmentIdentifier := d.environmentIdentifier,
       adminAuthorityPk := d.adminAuthorityPk,
       recoveryAuthorityPk := d.recoveryAuthorityPk,
       monotonicTreasuryConfigVersion := d.monotonicTreasuryConfigVersion,
       authorityEpoch := d.authorityEpoch)
  }

  /** The body after `apply_restore_to_body`, or why it refuses. */
  function Applied(b: KeystoreBody, data: RestoreIngressData, capacity: nat): Result<KeystoreBody, RestoreApplyError> {
    if capacity < |data.auditRecords| then Err(AuditCapacityOverflow)
    else if data.auditRecords != [] && MaxSeq(data.auditRecords) == U64_MAX then Err(RestoreOverflow)
    else if Max(b.strictRecoveryCounter, data.strictRecoveryCounter) == U64_MAX then Err(RestoreOverflow)
    else
      var nextSeq := if data.auditRecords == [] then 1 else MaxSeq(data.auditRecords) + 1;
      Ok(KeystoreBody(
           RestoredConfig(b.config, data.config), data.entries, data.counters, data.faucet,
           AuditRing(data.auditRecords, capacity, nextSeq - 1, nextSeq),
           b.freshnessEpoch, b.structuralVersion,
           Max(b.strictRecoveryCounter, data.strictRecoveryCounter) + 1))
  }

  /** All fallible values are computed before the first write, so an error leaves the body untouched. */
  method ApplyRestoreToBody(cell: KeystoreCell, data: RestoreIngressData, capacity: nat)
      returns (r: Result<(), RestoreApplyError>)
    modifies cell
    ensures match Applied(old(cell.body), data, capacity)
            case Ok(b) => r == Ok(()) && cell.body == b
            case Err(e) => r == Err(e) && cell.body == old(cell.body)
  {
    if capacity < |data.auditRecords| {
      return Err(AuditCapacityOverflow);
    }
    var nextSeq := 1;
    if data.auditRecords != [] {
      var m := MaxSeq(data.auditRecords);
      if m == U64_MAX {
        return Err(RestoreOverflow);
      }
      nextSeq := m + 1;
    }
    var lastExported := nextSeq - 1;
    var highest := Max(cell.body.strictRecoveryCounter, data.strictRecoveryCounter);
    if highest == U64_MAX {
      return Err(RestoreOverflow);
    }
    var recovery := highest + 1;
    cell.body := cell.body.(config := RestoredConfig(cell.body.config, data.config));
    cell.body := cell.body.(entries := data.entries);
    cell.body := cell.body.(counters := data.counters);
    cell.body := cell.body.(faucet := data.faucet);
    cell.body := cell.body.(audit := cell.body.audit.(records := data.auditRecords));
    cell.body := cell.body.(audit := cell.body.audit.(capacity := capacity));
    cell.body := cell.body.(audit := cell.body.audit.(nextSeq := nextSeq));
    cell.body := cell.body.(audit := cell.body.audit.(lastExportedSeq := lastExported));
    cell.body := cell.body.(strictRecoveryCounter := recovery);
    r := Ok(());
  }

  /** The body after `adopt_ac6_high_water`. */
  function Adopted(b: KeystoreBody, high: DecodedMarks): KeystoreBody {
    b.(counters := CountersOf(b.config.environmentIdentifier, high.rows),
       faucet := b.faucet.(cumulativeNativeSpend := high.cumulativeNativeSpend, lifetimeSpend := high.lifetimeSpend),
       strictRecoveryCounter := Max(b.strictRecoveryCounter, high.strictRecoveryCounter))
  }

  method AdoptAc6HighWater(cell: KeystoreCell, high: DecodedMarks)
    modifies cell
    ensures cell.body == Adopted(old(cell.body), high)
  {
    var env := cell.body.config.environmentIdentifier;
    var counters: seq<CounterEntry> := [];
    for i := 0 to |high.rows|
      invariant counters == CountersOf(env, high.rows)[..i]
      invariant cell.body == old(cell.body)
    {
      counters := counters + [CounterOf(env, high.rows[i])];
    }
    assert counters == CountersOf(env, high.rows);
    cell.body := cell.body.(counters := counters);
    cell.body := cell.body.(faucet := cell.body.faucet.(cumulativeNativeSpend := high.cumulativeNativeSpend));
    cell.body := cell.body.(faucet := cell.body.faucet.(lifetimeSpend := high.lifetimeSpend));
    cell.body := cell.body.(strictRecoveryCounter := Max(cell.body.strictRecoveryCounter, high.strictRecoveryCounter));
  }

  /** Covered rows bound every lookup, also over a table that repeats lanes or mixes environments. */
  lemma {:induction false} CoveredLookup(high: DecodedMarks, counters: seq<CounterEntry>, env: bytes, lane: Lane)
    requires forall i | 0 <= i < |counters| :: RowCovered(high.rows, counters[i])
    ensures Highest(counters, env, lane) <= MarkHighest(high.rows, lane)
  {
    HighestAt(counters, env, lane);
    match FindLane(counters, env, lane)
    case Some(i) => assert RowCovered(high.rows, counters[i]);
    case None =>
  }

  lemma {:induction false} AdoptedLookup(b: KeystoreBody, high: DecodedMarks, lane: Lane)
    ensures Highest(Adopted(b, high).counters, b.config.environmentIdentifier, lane) == MarkHighest(high.rows, lane)
  {
    var env := b.config.environmentIdentifier;
    HighestInTable(CountersOf(env, high.rows), env, lane);
    assert RowsOf(CountersOf(env, high.rows)) == high.rows;
  }

  /**
    Restore never lowers a lane, a spend or the recovery counter. Whatever the backup and the attested
    marks say, once the gate has passed, the restored body's lanes and spends are at least the
    destination's and the backup's, its recovery counter strictly exceeds both, and every restored audit
    record precedes `next_seq`. What it can lower is in `RestoreLowersExactly`.
   */
  lemma {:induction false} RestoreNeverLowers(before: KeystoreBody, data: RestoreIngressData, capacity: nat,
      high: DecodedMarks, lane: Lane)
    requires BackupCovered(data, high) && BodyCovered(before, high)
    requires Applied(before, data, capacity).Ok?
    requires data.config.environmentIdentifier == before.config.environmentIdentifier
    ensures var after := Adopted(Applied(before, data, capacity).value, high);
            var env := before.config.environmentIdentifier;
            && Highest(before.counters, env, lane) <= Highest(after.counters, env, lane)
            && Highest(data.counters, env, lane) <= Highest(after.counters, env, lane)
            && FromBE(before.faucet.cumulativeNativeSpend) <= FromBE(after.faucet.cumulativeNativeSpend)
            && FromBE(data.faucet.cumulativeNativeSpend) <= FromBE(after.faucet.cumulativeNativeSpend)
            && FromBE(before.faucet.lifetimeSpend) <= FromBE(after.faucet.lifetimeSpend)
            && FromBE(data.faucet.lifetimeSpend) <= FromBE(after.faucet.lifetimeSpend)
            && before.strictRecoveryCounter < after.strictRecoveryCounter
            && data.strictRecoveryCounter < after.strictRecoveryCounter
            && after.strictRecoveryCounter >= high.strictRecoveryCounter
            && (forall i | 0 <= i < |after.audit.records| :: after.audit.records[i].seqNo < after.audit.nextSeq)
            && after.audit.records == data.auditRecords && after.audit.lastExportedSeq + 1 == after.audit.nextSeq
  {
    hide Highest;
    var base := Applied(before, data, capacity).value;
    CoveredLookup(high, before.counters, before.config.environmentIdentifier, lane);
    CoveredLookup(high, data.counters, before.config.environmentIdentifier, lane);
    AdoptedLookup(base, high, lane);
    SpendsRise(before.faucet, high);
    SpendsRise(data.faucet, high);
  }

  lemma {:induction false} SpendsRise(f: FaucetState, high: DecodedMarks)
    requires LessEq(f.cumulativeNativeSpend, high.cumulativeNativeSpend) && LessEq(f.lifetimeSpend, high.lifetimeSpend)
    ensures FromBE(f.cumulativeNativeSpend) <= FromBE(high.cumulativeNativeSpend)
    ensures FromBE(f.lifetimeSpend) <= FromBE(high.lifetimeSpend)
  {
    LessEqIsNumeric(f.cumulativeNativeSpend, high.cumulativeNativeSpend);
    LessEqIsNumeric(f.lifetimeSpend, high.lifetimeSpend);
  }

  // ---------------------------------------------------------------- the whole transition

  /** The restore handler's last counter step: raise the capability's lane to at least its counter. */
  function RaisedLane(counters: seq<CounterEntry>, env: bytes, lane: Lane, counter: u64): Option<seq<CounterEntry>> {
    match FindLane(counters, env, lane)
    case Some(i) => Some(counters[i := counters[i].(highestAcceptedCounter := Max(counters[i].highestAcceptedCounter,
        counter))])
    case None =>
      if |counters| >= MAX_COUNTER_ENTRIES then None
      else Some(counters + [CounterEntry(lane.authority, env, lane.scopeClass, lane.scopeTarget, counter)])
  }

  lemma {:induction false} RaisedLaneLookups(counters: seq<CounterEntry>, env: bytes, lane: Lane, counter: u64,
      env': bytes, other: Lane)
    requires RaisedLane(counters, env, lane, counter).Some?
    ensures var t := RaisedLane(counters, env, lane, counter).value;
            && Highest(t, env, lane) == Max(Highest(counters, env, lane), counter)
            && (other != lane || env' != env ==> Highest(t, env', other) == Highest(counters, env', other))
  {
    var t := RaisedLane(counters, env, lane, counter).value;
    if counters == [] {
    } else if Matches(counters[0], env, lane) {
      assert t[1..] == counters[1..];
    } else {
      RaisedLaneLookups(counters[1..], env, lane, counter, env', other);
      assert t[1..] == RaisedLane(counters[1..], env, lane, counter).value;
    }
  }

  /** The candidate body of an admitted restore, ready to be sealed. */
  function RestoreCandidate(before: KeystoreBody, data: RestoreIngressData, high: DecodedMarks, lane: Lane,
      counter: u64): Option<KeystoreBody> {
    if !BackupCovered(data, high) || !BodyCovered(before, high) then None
    else match Applied(before, data, before.audit.capacity)
         case Err(_) => None
         case Ok(base) =>
           var adopted := Adopted(base, high);
           match RaisedLane(adopted.counters, adopted.config.environmentIdentifier, lane, counter)
           case None => None
           case Some(t) =>
             match AdvancedEpoch(adopted.(counters := t), true)
             case Err(_) => None
             case Ok(b) => Some(b)
  }

  method BuildRestoreCandidate(before: KeystoreBody, data: RestoreIngressData, high: DecodedMarks, lane: Lane,
      counter: u64)
    returns (r: Option<KeystoreBody>)
    ensures r == RestoreCandidate(before, data, high, lane, counter)
  {
    var gate := VerifyAc6HighWater(before, data, high);
    if gate.Err? {
      return None;
    }
    var candidate := new KeystoreCell(before);
    var applied := ApplyRestoreToBody(candidate, data, before.audit.capacity);
    if applied.Err? {
      return None;
    }
    AdoptAc6HighWater(candidate, high);
    var raised := RaisedLane(candidate.body.counters, candidate.body.config.environmentIdentifier, lane, counter);
    if raised.None? {
      return None;
    }
    candidate.body := candidate.body.(counters := raised.value);
    var advanced := candidate.AdvanceCommitEpoch(true);
    if advanced.Err? {
      return None;
    }
    r := Some(candidate.body);
  }

  /**
    The handler as a whole: every lane only rises, the authorising capability's lane reaches its
    counter, epoch and structural version step by one, and the enclave-local identity is kept.
   */
  lemma {:induction false} RestoreCandidateOnlyRaises(before: KeystoreBody, data: RestoreIngressData,
      high: DecodedMarks, lane: Lane, counter: u64, other: Lane)
    requires RestoreCandidate(before, data, high, lane, counter).Some?
    requires data.config.environmentIdentifier == before.config.environmentIdentifier
    ensures var after := RestoreCandidate(before, data, high, lane, counter).value;
            var env := before.config.environmentIdentifier;
            && Highest(before.counters, env, other) <= Highest(after.counters, env, other)
            && Highest(data.counters, env, other) <= Highest(after.counters, env, other)
            && counter <= Highest(after.counters, env, lane)
            && after.config.environmentIdentifier == env
            && after.freshnessEpoch == before.freshnessEpoch + 1
            && after.structuralVersion == before.structuralVersion + 1
            && before.strictRecoveryCounter < after.strictRecoveryCounter
            && after.config.anchorRoot == before.config.anchorRoot
            && after.config.enclaveScopeId == before.config.enclaveScopeId
            && after.config.fleetScopeId == before.config.fleetScopeId
            && after.config.backupRecoveryWrappingPubkey == before.config.backupRecoveryWrappingPubkey
  {
    hide Highest, RaisedLane, BackupCovered, BodyCovered;
    var env := before.config.environmentIdentifier;
    RestoreNeverLowers(before, data, before.audit.capacity, high, other);
    var adopted := Adopted(Applied(before, data, before.audit.capacity).value, high);
    RaisedLaneLookups(adopted.counters, env, lane, counter, env, other);
  }

  /**
    The other three monotonic numbers of a body come from the backup, so a restore lowers each exactly
    when the backup is behind in it; the audit sequence restarts after the backup's highest record.
   */
  lemma {:induction false} RestoreLowersExactly(before: KeystoreBody, data: RestoreIngressData, high: DecodedMarks,
      lane: Lane, counter: u64)
    requires RestoreCandidate(before, data, high, lane, counter).Some?
    ensures var after := RestoreCandidate(before, data, high, lane, counter).value;
            && (after.config.monotonicTreasuryConfigVersion < before.config.monotonicTreasuryConfigVersion <==>
                data.config.monotonicTreasuryConfigVersion < before.config.monotonicTreasuryConfigVersion)
            && (after.config.authorityEpoch < before.config.authorityEpoch <==>
                data.config.authorityEpoch < before.config.authorityEpoch)
            && (after.audit.nextSeq < before.audit.nextSeq <==>
                before.audit.nextSeq > 1
                && forall i | 0 <= i < |data.auditRecords| :: data.auditRecords[i].seqNo + 1 < before.audit.nextSeq)
  {
    hide RaisedLane, BackupCovered, BodyCovered, CountersOf;
  }

  /** What the restore gate and the counters' limits ask for, as the caller can check it beforehand. */
  predicate Restorable(before: KeystoreBody, data: RestoreIngressData, high: DecodedMarks, lane: Lane) {
    && BackupCovered(data, high) && BodyCovered(before, high)
    && |data.auditRecords| <= before.audit.capacity
    && (forall i | 0 <= i < |data.auditRecords| :: data.auditRecords[i].seqNo < U64_MAX)
    && before.strictRecoveryCounter < U64_MAX && data.strictRecoveryCounter < U64_MAX
    && (FindRow(high.rows, lane).Some? || |high.rows| < MAX_COUNTER_ENTRIES)
    && before.freshnessEpoch < U64_MAX && before.structuralVersion < U64_MAX
  }

  lemma {:induction false} RestorableExactly(before: KeystoreBody, data: RestoreIngressData, high: DecodedMarks,
      lane: Lane, counter: u64)
    ensures RestoreCandidate(before, data, high, lane, counter).Some? <==> Restorable(before, data, high, lane)
  {
    hide BackupCovered, BodyCovered;
    LaneInTable(data.config.environmentIdentifier, high.rows, lane);
  }

  lemma {:induction false} LaneInTable(env: bytes, rows: seq<DecodedRow>, lane: Lane)
    ensures FindLane(CountersOf(env, rows), env, lane).Some? <==> FindRow(rows, lane).Some?
  {
    if rows != [] {
      LaneInTable(env, rows[1..], lane);
      assert CountersOf(env, rows)[1..] == CountersOf(env, rows[1..]);
    }
  }
}
