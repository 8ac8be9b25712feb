/**
  The payload binding: the hash in a capability that pins the command parameters. Its preimage joins
  opcode, request id and parameters without lengths.
 */
module Binding {
  import opened Wrappers
  import opened Bytes
  import opened Cbor
  import opened Crypto
  import opened Emit
  import opened Keystore
  import opened MapAccess

  function BindingPreimage(opcode: u8, subOp: Option<u8>, requestId: bytes, params: bytes): bytes {
    [opcode] + ((if subOp.Some? then [subOp.value] else []) + (requestId + params))
  }

  method PayloadBinding(p: Primitives, opcode: u8, subOp: Option<u8>, requestId: bytes, params: bytes)
    returns (h: bytes32)
    ensures h == (p.keccak)(BindingPreimage(opcode, subOp, requestId, params))
  {
    var pre: bytes := [opcode];
    if subOp.Some? {
      pre := pre + [subOp.value];
    }
    pre := pre + requestId;
    pre := pre + params;
    assert pre == BindingPreimage(opcode, subOp, requestId, params);
    h := (p.keccak)(pre);
  }

  // ---------------------------------------------------------------- GENERATE_KEYS parameters

  function PurposeCode(purpose: KeyPurpose): u8 {
    match purpose case AgentTransferK1 => 1 case AgentFaucetTreasuryK1 => 2
  }

  function KeygenEntries(code: u64, count: u64): entries {
    [(Int(1), Int(code)), (Int(2), Int(count))]
  }

  function KeygenParams(code: u64, count: u64): bytes {
    Encode(MapV(KeygenEntries(code, count)))
  }

  method GenerateKeysCanonicalParams(code: u64, count: u64) returns (out: bytes)
    ensures out == KeygenParams(code, count)
  {
    hide Head, Encode, EncodeEntries;
    out := PutMapHeader([], 2);
    ghost var base, d := out, [];
    out, d := PutUintEntry(out, base, d, 1, code);
    out, d := PutUintEntry(out, base, d, 2, count);
    assert d == KeygenEntries(code, count);
    EncodeMap([], d);
    assert [] + Encode(MapV(d)) == Encode(MapV(d));
  }

  /** The payload of a key generation: exactly purpose and count, nothing else. */
  function KeygenRequest(payload: Option<entries>): Option<(KeyPurpose, u64)> {
    if payload.None? || |payload.value| != 2 then None
    else match (GetU64(payload.value, 1), GetU64(payload.value, 2))
         case (Some(code), Some(count)) =>
           if code == 1 then Some((AgentTransferK1, count))
           else if code == 2 then Some((AgentFaucetTreasuryK1, count))
           else None
         case _ => None
  }

  /** In a strictly decoded envelope, the bytes hashed into the binding are the payload's own wire bytes. */
  lemma {:induction false} BindingCoversWire(m: entries, depth: nat, cap: nat)
    requires Legal(MapV(m), depth, cap) && KeygenRequest(Some(m)).Some?
    ensures var (purpose, count) := KeygenRequest(Some(m)).value;
            m == KeygenEntries(PurposeCode(purpose), count)
                && Encode(MapV(m)) == KeygenParams(PurposeCode(purpose), count)
  {
    hide Encode;
    MapGetFound(m, 1);
    MapGetFound(m, 2);
    var i :| 0 <= i < |m| && m[i] == (Int(1), MapGet(m, 1).value);
    var j :| 0 <= j < |m| && m[j] == (Int(2), MapGet(m, 2).value);
    assert Less(Encode(m[0].0), Encode(m[1].0));
    UintOrder(1, 2);
    LessAsymmetric(Encode(Int(1)), Encode(Int(2)));
    assert i == 0 && j == 1;
  }

  // ---------------------------------------------------------------- what the binding pins down

  /** Under one request id, which the capability also signs, the preimage determines the parameters. */
  lemma {:induction false} BindingFixesParams(opcode: u8, subOp: Option<u8>, requestId: bytes, s: bytes, t: bytes)
    requires BindingPreimage(opcode, subOp, requestId, s) == BindingPreimage(opcode, subOp, requestId, t)
    ensures s == t
  {
    var front := [opcode] + ((if subOp.Some? then [subOp.value] else []) + requestId);
    assert BindingPreimage(opcode, subOp, requestId, s) == front + s;
    assert BindingPreimage(opcode, subOp, requestId, t) == front + t;
    SplitAt(front, s, front, t);
  }

  /** The least count whose encoding contains another request's parameters. */
  const COLLIDING_COUNT: u64 := 0xA2_0101_0200

  lemma {:induction false} ParamsShape(code: u64, count: u64)
    requires code == 1 || code == 2
    ensures KeygenParams(code, count) == [0xA2, 1, code as int, 2] + Head(0, count)
  {
    var es := KeygenEntries(code, count);
    assert es[1..] == [(Int(2), Int(count))] && es[1..][1..] == [];
    assert EncodeEntries([(Int(2), Int(count))]) == [2] + (Head(0, count) + []);
    assert EncodeEntries(es) == [1] + ([code as int] + ([2] + (Head(0, count) + [])));
    assert Head(5, 2) == [0xA2];
    assert [0xA2] + ([1] + ([code as int] + ([2] + (Head(0, count) + [])))) == [0xA2, 1, code as int, 2] + Head(0,
        count);
  }

  lemma {:induction false} NatHead(n: u64)
    ensures var h := Head(0, n);
            1 <= |h| && h[0] < 0x1C && (|h| <= 5 || (|h| == 9 && h == [0x1B] + BE(8, n)))
  {
    hide BE;
  }

  /** Where the shorter parameters can start: inside the eight bytes of a large count. */
  lemma {:induction false} NestedAt(c1: byte, h: bytes, c2: byte, g: bytes, d: nat)
    requires 1 <= c1 <= 2 && h != [] && h[0] < 0x1C && (|h| <= 5 || |h| == 9) && g != []
    requires 0 < d <= 4 + |h| && ([0xA2, 1, c1, 2] + h)[d..] == [0xA2, 1, c2, 2] + g
    ensures 5 <= d <= 8 && |h| == 9
    ensures h[d - 4] == 0xA2 && h[d - 3] == 1 && h[d - 2] == c2 && h[d - 1] == 2
  {
    var long, short := [0xA2, 1, c1, 2] + h, [0xA2, 1, c2, 2] + g;
    assert |short| == |long| - d && |short| >= 5;
    assert long[d] == short[0] && long[d + 1] == short[1] && long[d + 2] == short[2] && long[d + 3] == short[3];
    assert d != 1 && d != 2 && d != 3 && d != 4;
  }

  /** Parameters inside the tail of other, longer parameters: only a huge count has room for them. */
  lemma {:induction false} NestedParams(c1: u64, n1: u64, c2: u64, n2: u64, d: nat)
    requires 1 <= c1 <= 2 && 1 <= c2 <= 2 && 0 < d <= |KeygenParams(c1, n1)|
    requires KeygenParams(c1, n1)[d..] == KeygenParams(c2, n2)
    ensures n1 >= COLLIDING_COUNT
  {
    ParamsShape(c1, n1);
    ParamsShape(c2, n2);
    NatHead(n1);
    NatHead(n2);
    hide KeygenParams, Head, BE, FromBE;
    var h, arg := Head(0, n1), BE(8, n1);
    NestedAt(c1, h, c2, Head(0, n2), d);
    assert forall k | 1 <= k < 9 :: h[k] == arg[k - 1];
    Pow256Values();
    FromBEOfBE(8, n1);
    LargeTail(arg, d - 5);
  }

  /** Eight bytes with these five values at an offset of at most three are a large number. */
  lemma {:induction false} LargeTail(arg: bytes, i: nat)
    requires |arg| == 8 && i <= 3 && arg[i] == 0xA2 && arg[i + 1] == 1 && arg[i + 2] >= 1 && arg[i + 3] == 2
    ensures FromBE(arg) >= COLLIDING_COUNT
  {
    Digits(arg);
  }

  lemma {:induction false} Digits(arg: bytes)
    requires |arg| == 8
    ensures var high := 0x100_0000 * (arg[0] as int) + 0x1_0000 * (arg[1] as int) + 0x100 * (arg[2] as int) + arg[3];
            var low := 0x100_0000 * (arg[4] as int) + 0x1_0000 * (arg[5] as int) + 0x100 * (arg[6] as int) + arg[7];
            FromBE(arg) == 0x1_0000_0000 * high + low
  {
    assert arg[..7][..6] == arg[..6] && arg[..6][..5] == arg[..5] && arg[..5][..4] == arg[..4];
    assert arg[..4][..3] == arg[..3] && arg[..3][..2] == arg[..2] && arg[..2][..1] == arg[..1] && arg[..1][..0] == [];
    assert FromBE(arg[..1]) == arg[0];
    assert FromBE(arg[..2]) == 0x100 * FromBE(arg[..1]) + arg[1];
    assert FromBE(arg[..3]) == 0x100 * FromBE(arg[..2]) + arg[2];
    assert FromBE(arg[..4]) == 0x100 * FromBE(arg[..3]) + arg[3];
    assert FromBE(arg[..5]) == 0x100 * FromBE(arg[..4]) + arg[4];
    assert FromBE(arg[..6]) == 0x100 * FromBE(arg[..5]) + arg[5];
    assert FromBE(arg[..7]) == 0x100 * FromBE(arg[..6]) + arg[6];
  }

  /** A key generation as the binding sees it. */
  function KeygenPreimage(requestId: bytes, code: u64, count: u64): bytes {
    BindingPreimage(1, None, requestId, KeygenParams(code, count))
  }

  /** No two key generations with counts up to `maxCount` share a binding preimage. */
  ghost predicate BindingUnambiguous(maxCount: u64) {
    forall r1: bytes, c1: u64, n1: u64, r2: bytes, c2: u64, n2: u64
      | 1 <= c1 <= 2 && 1 <= c2 <= 2 && n1 <= maxCount && n2 <= maxCount
        && KeygenPreimage(r1, c1, n1) == KeygenPreimage(r2, c2, n2)
      :: r1 == r2 && c1 == c2 && n1 == n2
  }

  lemma {:induction false} SamePreimage(r1: bytes, c1: u64, n1: u64, r2: bytes, c2: u64, n2: u64)
    requires 1 <= c1 <= 2 && 1 <= c2 <= 2 && n1 < COLLIDING_COUNT && n2 < COLLIDING_COUNT
    requires KeygenPreimage(r1, c1, n1) == KeygenPreimage(r2, c2, n2)
    ensures r1 == r2 && c1 == c2 && n1 == n2
  {
    hide KeygenParams;
    var p1, p2 := KeygenParams(c1, n1), KeygenParams(c2, n2);
    assert KeygenPreimage(r1, c1, n1) == [1] + (r1 + p1) && KeygenPreimage(r2, c2, n2) == [1] + (r2 + p2);
    SplitAt([1], r1 + p1, [1], r2 + p2);
    if |p1| > |p2| {
      SuffixOf(r1, p1, r2, p2);
      NestedParams(c1, n1, c2, n2, |p1| - |p2|);
    } else if |p1| < |p2| {
      SuffixOf(r2, p2, r1, p1);
      NestedParams(c2, n2, c1, n1, |p2| - |p1|);
    } else {
      SplitAt(r1, p1, r2, p2);
      SameParams(c1, n1, c2, n2);
    }
  }

  lemma {:induction false} SuffixOf(a: bytes, s: bytes, b: bytes, t: bytes)
    requires a + s == b + t && |s| >= |t|
    ensures s[|s| - |t|..] == t
  {
    var d := |s| - |t|;
    assert (a + s)[|a| + d..] == s[d..];
    assert (b + t)[|b|..] == t;
  }

  lemma {:induction false} SameParams(c1: u64, n1: u64, c2: u64, n2: u64)
    requires KeygenParams(c1, n1) == KeygenParams(c2, n2)
    ensures c1 == c2 && n1 == n2
  {
    var es, fs := KeygenEntries(c1, n1), KeygenEntries(c2, n2);
    FlatSized(es);
    FlatSized(fs);
    hide Encode;
    EncodeInjective(MapV(es), MapV(fs));
    assert es[0].1 == fs[0].1 && es[1].1 == fs[1].1;
  }

  lemma {:induction false} CollidingHead()
    ensures Head(0, COLLIDING_COUNT) == [0x1B, 0, 0, 0] + [0xA2, 1, 1, 2] + [0] && Head(0, 0) == [0]
  {
    var digits: bytes := [0, 0, 0, 0xA2, 1, 1, 2, 0];
    Digits(digits);
    BEOfFromBE(digits);
    hide BE, FromBE;
    NatHead(COLLIDING_COUNT);
    assert [0x1B] + digits == [0x1B, 0, 0, 0] + [0xA2, 1, 1, 2] + [0];
  }

  lemma {:induction false} MovedIntoId(id: bytes, long: bytes, short: bytes)
    requires long == id + short
    ensures BindingPreimage(1, None, [], long) == BindingPreimage(1, None, id, short)
  {
    assert [] + long == id + short;
  }

  lemma {:induction false} CollidingParams()
    ensures KeygenParams(1, COLLIDING_COUNT) == [0xA2, 1, 1, 2] + [0x1B, 0, 0, 0] + KeygenParams(1, 0)
  {
    ParamsShape(1, COLLIDING_COUNT);
    ParamsShape(1, 0);
    CollidingHead();
    hide KeygenParams, Head;
    var front: bytes, mid: bytes, last: bytes := [0xA2, 1, 1, 2], [0x1B, 0, 0, 0], [0];
    Regrouped(front, mid, last);
  }

  lemma {:induction false} Regrouped(front: bytes, mid: bytes, last: bytes)
    ensures front + (mid + front + last) == front + mid + (front + last)
  {
  }

  /** A count that spells out another request's parameters; the rest of it passes for request id. */
  lemma {:induction false} HugeCountCollides()
    ensures KeygenPreimage([], 1, COLLIDING_COUNT) == KeygenPreimage([0xA2, 1, 1, 2] + [0x1B, 0, 0, 0], 1, 0)
  {
    hide KeygenParams, BindingPreimage;
    CollidingParams();
    MovedIntoId([0xA2, 1, 1, 2] + [0x1B, 0, 0, 0], KeygenParams(1, COLLIDING_COUNT), KeygenParams(1, 0));
  }

  /** The binding tells requests apart exactly while counts stay below the colliding one. */
  lemma {:induction false} BindingExact(maxCount: u64)
    ensures BindingUnambiguous(maxCount) <==> maxCount < COLLIDING_COUNT
  {
    hide KeygenPreimage;
    if maxCount < COLLIDING_COUNT {
      forall r1: bytes, c1: u64, n1: u64, r2: bytes, c2: u64, n2: u64
        | 1 <= c1 <= 2 && 1 <= c2 <= 2 && n1 <= maxCount && n2 <= maxCount
          && KeygenPreimage(r1, c1, n1) == KeygenPreimage(r2, c2, n2)
        ensures r1 == r2 && c1 == c2 && n1 == n2
      {
        SamePreimage(r1, c1, n1, r2, c2, n2);
      }
    } else {
      HugeCountCollides();
    }
  }

  /** Key generation refuses counts above its batch limit, far below the colliding one. */
  lemma {:induction false} AcceptedCountsAreUnambiguous()
    ensures BindingUnambiguous(MAX_BATCH_SIZE)
  {
    BindingExact(MAX_BATCH_SIZE);
  }
}
