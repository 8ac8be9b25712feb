/**
  Key generation: staged, all-or-nothing, with bounded redraws of a key reference that is already
  taken. The CSPRNG and the key-pair generator are arbitrary functions of the key and draw index.
 */
module Keygen {
  import opened Wrappers
  import opened Bytes
  import opened Keystore

  const RNG_RETRIES: nat := 8

  datatype GenerateKeysError = InvalidCount | TreasuryExists | TooMany | Csprng

  datatype KeyPair = KeyPair(publicUncompressed: bytes, secret: bytes)

  /** `ref(i, j)` is the j-th reference drawn for key i; `pair(i)` its key pair; None is an RNG failure. */
  datatype Randomness = Randomness(ref: (nat, nat) -> Option<bytes32>, pair: nat -> Option<KeyPair>)

  /** What the caller is told about a key: everything but the secret. */
  datatype GeneratedKey = GeneratedKey(
    keyRef: bytes32,
    publicUncompressed: bytes,
    ethAddress: bytes,
    tronAddress: string,
    purpose: KeyPurpose)

  /** The hashes and the text encoding that addresses are made with. */
  datatype AddressCodec = AddressCodec(keccak: bytes -> bytes32, sha256: bytes -> bytes32, base58: bytes -> string)

  /** The last 20 bytes of the hash of a public key without its form byte. */
  function EthAddress(a: AddressCodec, public: bytes): (body: bytes)
    ensures |body| == 20
  {
    (a.keccak)(if public == [] then [] else public[1..])[12..]
  }

  /** Prefix, body and the first four bytes of the double hash of both. */
  function TronAddress(a: AddressCodec, body: bytes): string {
    var payload := [0x41] + body;
    (a.base58)(payload + (a.sha256)((a.sha256)(payload))[..4])
  }

  function Announce(a: AddressCodec, e: KeyEntry): GeneratedKey {
    var eth := EthAddress(a, e.publicIdentity);
    GeneratedKey(e.keyRef, e.publicIdentity, eth, TronAddress(a, eth), e.purpose)
  }

  predicate WellFormedPairs(r: Randomness, count: nat) {
    forall i | 0 <= i < count && (r.pair)(i).Some? ::
      var k := (r.pair)(i).value;
      |k.publicUncompressed| == 65 && k.publicUncompressed[0] == 0x04 && |k.secret| == 32
  }

  function RefSet(entries: seq<KeyEntry>): set<bytes32> {
    set i | 0 <= i < |entries| :: entries[i].keyRef
  }

  function Treasuries(entries: seq<KeyEntry>): nat {
    if entries == [] then 0
    else (if entries[0].purpose == AgentFaucetTreasuryK1 then 1 else 0) + Treasuries(entries[1..])
  }

  // ---------------------------------------------------------------- what a call should do

  /** First draw for key `i`, from draw `j` on, that is not taken; None when a draw fails or the bound is hit. */
  function FreshRef(r: Randomness, seen: set<bytes32>, i: nat, j: nat): Option<bytes32>
    decreases RNG_RETRIES - j
  {
    if j >= RNG_RETRIES then None
    else match (r.ref)(i, j)
         case None => None
         case Some(x) => if x !in seen then Some(x) else FreshRef(r, seen, i, j + 1)
  }

  function NewEntry(ref: bytes32, purpose: KeyPurpose, k: KeyPair, creation: CreationMetadata): KeyEntry {
    KeyEntry(ref, purpose, Secp256k1, k.publicUncompressed, k.secret, creation, 0)
  }

  /** The first `n` staged entries, or None when some draw fails. */
  function Staged(r: Randomness, existing: seq<KeyEntry>, purpose: KeyPurpose, creation: CreationMetadata,
      n: nat): (s: Option<seq<KeyEntry>>)
    ensures s.Some? ==> |s.value| == n
  {
    if n == 0 then Some([])
    else
      var front :- Staged(r, existing, purpose, creation, n - 1);
      var ref :- FreshRef(r, RefSet(existing) + RefSet(front), n - 1, 0);
      var k :- (r.pair)(n - 1);
      Some(front + [NewEntry(ref, purpose, k, creation)])
  }

  lemma {:induction false} StagedPrefix(r: Randomness, existing: seq<KeyEntry>, purpose: KeyPurpose,
      creation: CreationMetadata, n: nat, m: nat)
    requires n <= m && Staged(r, existing, purpose, creation, m).Some?
    ensures Staged(r, existing, purpose, creation, n).Some?
  {
    if n < m {
      StagedPrefix(r, existing, purpose, creation, n, m - 1);
    }
  }

  /** Why a call is refused before anything is drawn. */
  function Refusal(entries: seq<KeyEntry>, purpose: KeyPurpose, count: nat): Option<GenerateKeysError> {
    if purpose == AgentFaucetTreasuryK1 && count != 1 then Some(InvalidCount)
    else if purpose == AgentTransferK1 && count == 0 then Some(InvalidCount)
    else if purpose == AgentFaucetTreasuryK1 && Treasuries(entries) > 0 then Some(TreasuryExists)
    else if count > MAX_BATCH_SIZE || |entries| + count > MAX_TOTAL_KEY_ENTRIES then Some(TooMany)
    else None
  }

  function Announced(a: AddressCodec, entries: seq<KeyEntry>): (keys: seq<GeneratedKey>)
    ensures |keys| == |entries|
    ensures forall i | 0 <= i < |entries| :: keys[i] == Announce(a, entries[i])
  {
    if entries == [] then [] else [Announce(a, entries[0])] + Announced(a, entries[1..])
  }

  // ---------------------------------------------------------------- the call

  method HasTreasury(entries: seq<KeyEntry>) returns (found: bool)
    ensures found <==> Treasuries(entries) > 0
  {
    for i := 0 to |entries|
      invariant Treasuries(entries) == Treasuries(entries[i..])
    {
      if entries[i].purpose == AgentFaucetTreasuryK1 {
        return true;
      }
      assert entries[i..][1..] == entries[i + 1..];
    }
    found := false;
  }

  method DrawRef(r: Randomness, seen: set<bytes32>, i: nat) returns (ref: Option<bytes32>)
    ensures ref == FreshRef(r, seen, i, 0)
  {
    for j := 0 to RNG_RETRIES
      invariant FreshRef(r, seen, i, 0) == FreshRef(r, seen, i, j)
    {
      var x := (r.ref)(i, j);
      if x.None? {
        return None;
      }
      if x.value !in seen {
        return x;
      }
    }
    ref := None;
  }

  /**
    `generate_keys`: on success exactly `count` entries are appended, in the order they are
    announced; on failure the body is untouched.
   */
  method GenerateKeys(cell: KeystoreCell, purpose: KeyPurpose, count: nat, creation: CreationMetadata, r: Randomness,
                      codec: AddressCodec)
    returns (res: Result<seq<GeneratedKey>, GenerateKeysError>)
    modifies cell
    ensures var before := old(cell.body);
            var staged := Staged(r, before.entries, purpose, creation, count);
            match Refusal(before.entries, purpose, count)
            case Some(e) => res == Err(e) && cell.body == before
            case None =>
              if staged.None? then res == Err(Csprng) && cell.body == before
              else && res == Ok(Announced(codec, staged.value))
                   && cell.body == before.(entries := before.entries + staged.value)
  {
    hide FreshRef, Treasuries, RefSet, TronAddress, EthAddress;
    if purpose == AgentFaucetTreasuryK1 && count != 1 {
      return Err(InvalidCount);
    }
    if purpose == AgentTransferK1 && count == 0 {
      return Err(InvalidCount);
    }
    if purpose == AgentFaucetTreasuryK1 {
      var exists_ := HasTreasury(cell.body.entries);
      if exists_ {
        return Err(TreasuryExists);
      }
    }
    if count > MAX_BATCH_SIZE || |cell.body.entries| + count > MAX_TOTAL_KEY_ENTRIES {
      return Err(TooMany);
    }
    var existing := cell.body.entries;
    var seen := RefSet(existing);
    var staged: seq<KeyEntry> := [];
    var generated: seq<GeneratedKey> := [];
    NoRefs(existing);
    for i := 0 to count
      invariant cell.body == old(cell.body)
      invariant Staged(r, existing, purpose, creation, i) == Some(staged)
      invariant seen == RefSet(existing) + RefSet(staged)
      invariant generated == Announced(codec, staged)
    {
      if Staged(r, existing, purpose, creation, count).Some? {
        StagedPrefix(r, existing, purpose, creation, i + 1, count);
      }
      var ref := DrawRef(r, seen, i);
      if ref.None? {
        return Err(Csprng);
      }
      seen := seen + {ref.value};
      var pair := (r.pair)(i);
      if pair.None? {
        return Err(Csprng);
      }
      var entry := NewEntry(ref.value, purpose, pair.value, creation);
      RefSetSnoc(staged, entry);
      AnnouncedSnoc(codec, staged, entry);
      staged := staged + [entry];
      var eth := EthAddress(codec, pair.value.publicUncompressed);
      var tron := TronAddress(codec, eth);
      generated := generated + [GeneratedKey(ref.value, pair.value.publicUncompressed, eth, tron, purpose)];
    }
    cell.body := cell.body.(entries := existing + staged);
    res := Ok(generated);
  }

  lemma {:induction false} NoRefs(entries: seq<KeyEntry>)
    ensures RefSet(entries) == RefSet(entries) + RefSet([])
  {
  }

  lemma {:induction false} RefSetSnoc(entries: seq<KeyEntry>, e: KeyEntry)
    ensures RefSet(entries + [e]) == RefSet(entries) + {e.keyRef}
  {
    var all := entries + [e];
    assert all[|entries|] == e;
    forall x | x in RefSet(entries) ensures x in RefSet(all) {
      var i :| 0 <= i < |entries| && entries[i].keyRef == x;
      assert all[i].keyRef == x;
    }
  }

  lemma {:induction false} AnnouncedSnoc(a: AddressCodec, entries: seq<KeyEntry>, e: KeyEntry)
    ensures Announced(a, entries + [e]) == Announced(a, entries) + [Announce(a, e)]
  {
    hide Announce;
  }

  // ---------------------------------------------------------------- what every call keeps

  /** Distinct references, at most one treasury key, within the total cap. */
  predicate KeysOk(entries: seq<KeyEntry>) {
    UniqueRefs(entries) && Treasuries(entries) <= 1 && |entries| <= MAX_TOTAL_KEY_ENTRIES
  }

  lemma {:induction false} FreshRefIsFresh(r: Randomness, seen: set<bytes32>, i: nat, j: nat)
    requires FreshRef(r, seen, i, j).Some?
    ensures FreshRef(r, seen, i, j).value !in seen
    decreases RNG_RETRIES - j
  {
    if (r.ref)(i, j).value in seen {
      FreshRefIsFresh(r, seen, i, j + 1);
    }
  }

  lemma {:induction false} TreasuriesAppend(a: seq<KeyEntry>, b: seq<KeyEntry>)
    ensures Treasuries(a + b) == Treasuries(a) + Treasuries(b)
  {
    if a == [] {
      assert a + b == b;
    } else {
      assert (a + b)[1..] == a[1..] + b;
      TreasuriesAppend(a[1..], b);
    }
  }

  lemma {:induction false} UniqueSnoc(entries: seq<KeyEntry>, e: KeyEntry)
    requires UniqueRefs(entries) && e.keyRef !in RefSet(entries)
    ensures UniqueRefs(entries + [e])
  {
    forall i | 0 <= i < |entries| ensures entries[i].keyRef != e.keyRef {
      assert entries[i].keyRef in RefSet(entries);
    }
  }

  lemma {:induction false} RefSetAppend(a: seq<KeyEntry>, b: seq<KeyEntry>)
    ensures RefSet(a + b) == RefSet(a) + RefSet(b)
  {
    if b == [] {
      assert a + b == a;
    } else {
      var front, e := b[..|b| - 1], b[|b| - 1];
      assert a + b == (a + front) + [e] && b == front + [e];
      RefSetAppend(a, front);
      RefSetSnoc(a + front, e);
      RefSetSnoc(front, e);
    }
  }

  /** Staged references differ from one another and from every existing one. */
  lemma {:induction false} StagedIsUnique(r: Randomness, existing: seq<KeyEntry>, purpose: KeyPurpose,
      creation: CreationMetadata, n: nat)
    requires UniqueRefs(existing) && Staged(r, existing, purpose, creation, n).Some?
    ensures var s := Staged(r, existing, purpose, creation, n).value;
            && UniqueRefs(existing + s)
            && (forall i | 0 <= i < n :: s[i].purpose == purpose && s[i].creationMetadata == creation)
            && Treasuries(s) == if purpose == AgentFaucetTreasuryK1 then n else 0
  {
    hide UniqueRefs, RefSet, FreshRef, Treasuries;
    if n == 0 {
      assert existing + [] == existing;
      NoTreasuries();
    } else {
      StagedIsUnique(r, existing, purpose, creation, n - 1);
      var front := Staged(r, existing, purpose, creation, n - 1).value;
      var s := Staged(r, existing, purpose, creation, n).value;
      var e := s[n - 1];
      assert s == front + [e] && existing + s == (existing + front) + [e];
      FreshRefIsFresh(r, RefSet(existing) + RefSet(front), n - 1, 0);
      RefSetAppend(existing, front);
      UniqueSnoc(existing + front, e);
      TreasuriesAppend(front, [e]);
      OneTreasury(e);
    }
  }

  lemma {:induction false} NoTreasuries()
    ensures Treasuries([]) == 0
  {
  }

  lemma {:induction false} OneTreasury(e: KeyEntry)
    ensures Treasuries([e]) == if e.purpose == AgentFaucetTreasuryK1 then 1 else 0
  {
    assert [e][1..] == [];
  }

  lemma {:induction false} SuccessKeepsKeysOk(r: Randomness, existing: seq<KeyEntry>, purpose: KeyPurpose,
      creation: CreationMetadata, count: nat)
    requires KeysOk(existing) && Refusal(existing, purpose, count) == None
        && Staged(r, existing, purpose, creation, count).Some?
    ensures KeysOk(existing + Staged(r, existing, purpose, creation, count).value)
  {
    StagedIsUnique(r, existing, purpose, creation, count);
    TreasuriesAppend(existing, Staged(r, existing, purpose, creation, count).value);
  }

  datatype Call = Call(purpose: KeyPurpose, count: nat, creation: CreationMetadata, randomness: Randomness)

  /** The entries after a sequence of calls, failing ones included. */
  function AfterCalls(entries: seq<KeyEntry>, calls: seq<Call>): seq<KeyEntry> {
    if calls == [] then entries
    else
      var e, c := AfterCalls(entries, calls[..|calls| - 1]), calls[|calls| - 1];
      var staged := Staged(c.randomness, e, c.purpose, c.creation, c.count);
      if Refusal(e, c.purpose, c.count) == None && staged.Some? then e + staged.value else e
  }

  /**
    Over any sequence of calls and any draws the references stay distinct, there is at most one
    treasury key, the cap holds, and no earlier entry is ever moved or changed.
   */
  lemma {:induction false} CallsKeepKeysOk(entries: seq<KeyEntry>, calls: seq<Call>)
    requires KeysOk(entries)
    ensures KeysOk(AfterCalls(entries, calls)) && entries <= AfterCalls(entries, calls)
  {
    hide KeysOk, Staged, Refusal;
    if calls != [] {
      var c := calls[|calls| - 1];
      CallsKeepKeysOk(entries, calls[..|calls| - 1]);
      var e := AfterCalls(entries, calls[..|calls| - 1]);
      if Refusal(e, c.purpose, c.count) == None && Staged(c.randomness, e, c.purpose, c.creation, c.count).Some? {
        SuccessKeepsKeysOk(c.randomness, e, c.purpose, c.creation, c.count);
      }
    }
  }

  /** Generated keys also pass the at-rest validation of entries. */
  lemma {:induction false} GeneratedAreValid(r: Randomness, existing: seq<KeyEntry>, purpose: KeyPurpose,
      creation: CreationMetadata, count: nat)
    requires ValidEntries(existing) && WellFormedPairs(r, count)
    requires Refusal(existing, purpose, count) == None && Staged(r, existing, purpose, creation, count).Some?
    ensures ValidEntries(existing + Staged(r, existing, purpose, creation, count).value)
  {
    StagedIsUnique(r, existing, purpose, creation, count);
    StagedShape(r, existing, purpose, creation, count);
  }

  lemma {:induction false} StagedShape(r: Randomness, existing: seq<KeyEntry>, purpose: KeyPurpose,
      creation: CreationMetadata, n: nat)
    requires WellFormedPairs(r, n) && Staged(r, existing, purpose, creation, n).Some?
    ensures forall e | e in Staged(r, existing, purpose, creation, n).value ::
              |e.publicIdentity| == 65 && e.publicIdentity[0] == 0x04 && |e.secretScalar| == 32
  {
    if n > 0 {
      StagedShape(r, existing, purpose, creation, n - 1);
    }
  }
}
