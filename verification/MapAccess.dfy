/**
  Error-agnostic accessors for decoded integer-keyed wire maps, the duplicate-key bitmask, and the
  fact that a canonical map is determined by what can be looked up in it.
 */
module MapAccess {
  import opened Wrappers
  import opened Bytes
  import opened Cbor

  type entries = seq<(Value, Value)>

  /** First value under an integer key. */
  function MapGet(m: entries, key: u64): (r: Option<Value>) {
    if m == [] then None
    else if m[0].0 == Int(key) then Some(m[0].1)
    else MapGet(m[1..], key)
  }

  function AsU64(v: Value): (r: Option<u64>) {
    if v.Int? && v.n >= 0 then Some(v.n) else None
  }

  function AsBytes(v: Value): (r: Option<bytes>) {
    if v.Bstr? then Some(v.b) else None
  }

  function AsBytes32(v: Value): (r: Option<bytes32>) {
    if v.Bstr? && |v.b| == 32 then Some(v.b) else None
  }

  function AsBytes64(v: Value): (r: Option<bytes64>) {
    if v.Bstr? && |v.b| == 64 then Some(v.b) else None
  }

  function GetU64(m: entries, key: u64): (r: Option<u64>) {
    var v :- MapGet(m, key);
    AsU64(v)
  }

  function GetBytes(m: entries, key: u64): (r: Option<bytes>) {
    var v :- MapGet(m, key);
    AsBytes(v)
  }

  function GetBytes32(m: entries, key: u64): (r: Option<bytes32>) {
    var v :- MapGet(m, key);
    AsBytes32(v)
  }

  function GetBytes64(m: entries, key: u64): (r: Option<bytes64>) {
    var v :- MapGet(m, key);
    AsBytes64(v)
  }

  // ---------------------------------------------------------------- strict keys

  /** The key is an integer in 1..=64 that the schema allows. */
  predicate KeyAllowed(k: Value, allowed: nat -> bool) {
    k.Int? && 1 <= k.n <= 64 && allowed(k.n)
  }

  predicate KeysDistinct(m: entries) {
    forall i, j | 0 <= i < j < |m| :: m[i].0 != m[j].0
  }

  predicate StrictKeys(m: entries, allowed: nat -> bool) {
    KeysDistinct(m) && forall i | 0 <= i < |m| :: KeyAllowed(m[i].0, allowed)
  }

  function ShiftedOne(x: bv6): bv64 {
    (1 as bv64) << x
  }

  function Bit(n: nat): bv64
    requires 1 <= n <= 64
  {
    ShiftedOne((n - 1) as bv6)
  }

  /** `seen & bit != 0` */
  predicate Hits(seen: bv64, bit: bv64) {
    seen & bit != 0
  }

  /** `seen | bit` */
  function Or(seen: bv64, bit: bv64): bv64 {
    seen | bit
  }

  lemma {:induction false} BitVectors(x: bv6, y: bv6)
    ensures ShiftedOne(y) != 0
    ensures x != y ==> ShiftedOne(x) & ShiftedOne(y) == 0
  {
  }

  lemma {:induction false} OrSame(seen: bv64, x: bv64)
    ensures (seen | x) & x == x
  {
  }

  lemma {:induction false} OrOther(seen: bv64, x: bv64, y: bv64)
    requires x & y == 0
    ensures (seen | x) & y == seen & y
  {
  }

  lemma {:induction false} ShiftAmount(a: nat)
    requires a < 64
    ensures a as bv6 as nat == a
  {
  }

  lemma {:induction false} BitsApart(a: nat, b: nat)
    requires 1 <= a <= 64 && 1 <= b <= 64
    ensures Bit(b) != 0
    ensures a != b ==> Bit(a) & Bit(b) == 0
  {
    hide ShiftedOne;
    BitVectors((a - 1) as bv6, (b - 1) as bv6);
    ShiftAmount(a - 1);
    ShiftAmount(b - 1);
  }

  lemma {:induction false} HitsSame(seen: bv64, x: bv64)
    requires x != 0
    ensures Hits(Or(seen, x), x)
  {
    OrSame(seen, x);
  }

  lemma {:induction false} HitsSameBits(seen: bv64, other: bv64, y: bv64)
    requires seen & y == other & y
    ensures Hits(seen, y) <==> Hits(other, y)
  {
  }

  lemma {:induction false} HitsOther(seen: bv64, x: bv64, y: bv64)
    requires x & y == 0
    ensures Hits(Or(seen, x), y) <==> Hits(seen, y)
  {
    hide Hits;
    OrOther(seen, x, y);
    HitsSameBits(Or(seen, x), seen, y);
  }

  /** Setting the bit of key `a` changes membership of `a` and of nothing else. */
  lemma {:induction false} SetBit(seen: bv64, a: nat, b: nat)
    requires 1 <= a <= 64 && 1 <= b <= 64
    ensures Hits(Or(seen, Bit(a)), Bit(b)) <==> a == b || Hits(seen, Bit(b))
  {
    hide Bit, Hits, Or;
    BitsApart(a, b);
    if a == b {
      HitsSame(seen, Bit(a));
    } else {
      HitsOther(seen, Bit(a), Bit(b));
    }
  }

  predicate HasKey(m: entries, n: nat) {
    exists j | 0 <= j < |m| :: m[j].0.Int? && m[j].0.n == n
  }

  /** What the bitmask remembers of the keys seen so far. */
  ghost predicate Remembers(seen: bv64, m: entries) {
    forall n | 1 <= n <= 64 :: Hits(seen, Bit(n)) <==> HasKey(m, n)
  }

  lemma {:induction false} RemembersNothing()
    ensures Remembers(0, [])
  {
  }

  lemma {:induction false} Recalls(seen: bv64, m: entries, n: nat)
    requires 1 <= n <= 64 && Remembers(seen, m)
    ensures Hits(seen, Bit(n)) <==> HasKey(m, n)
  {
    hide Bit, Hits;
  }

  lemma {:induction false} RemembersNext(seen: bv64, m: entries, e: (Value, Value), n: nat)
    requires 1 <= n <= 64 && e.0 == Int(n) && Remembers(seen, m)
    ensures Remembers(Or(seen, Bit(n)), m + [e])
  {
    hide Bit, Hits, Or;
    forall b | 1 <= b <= 64 ensures Hits(Or(seen, Bit(n)), Bit(b)) <==> HasKey(m + [e], b) {
      SetBit(seen, n, b);
      assert (m + [e])[|m|] == e;
      if j :| 0 <= j < |m| && m[j].0.Int? && m[j].0.n == b {
        assert (m + [e])[j] == m[j];
      }
    }
  }

  lemma {:induction false} StrictSnoc(m: entries, e: (Value, Value), allowed: nat -> bool)
    ensures StrictKeys(m + [e], allowed)
            <==> StrictKeys(m, allowed) && KeyAllowed(e.0, allowed) && !HasKey(m, e.0.n)
  {
    var w := m + [e];
    assert w[|m|] == e;
    assert forall j | 0 <= j < |m| :: w[j] == m[j];
    if StrictKeys(w, allowed) {
      assert KeyAllowed(w[|m|].0, allowed);
      forall j | 0 <= j < |m| ensures m[j].0 != e.0 {
        assert w[j].0 != w[|m|].0;
      }
      forall j | 0 <= j < |m| ensures KeyAllowed(m[j].0, allowed) {
        assert KeyAllowed(w[j].0, allowed);
      }
    }
  }

  lemma {:induction false} StrictPrefix(m: entries, i: nat, allowed: nat -> bool)
    requires i <= |m| && StrictKeys(m, allowed)
    ensures StrictKeys(m[..i], allowed)
  {
  }

  /** One round of the bitmask loop: `e`'s key against the mask of the keys before it. */
  method AdmitKey(seen: bv64, ghost done: entries, e: (Value, Value), allowed: nat -> bool) returns (r: Option<bv64>)
    requires Remembers(seen, done)
    ensures r.Some? <==> KeyAllowed(e.0, allowed) && !HasKey(done, e.0.n)
    ensures r.Some? ==> Remembers(r.value, done + [e])
  {
    hide Bit, Hits, Or, HasKey, Remembers;
    var n := AsU64(e.0);
    if n.None? {
      return None;
    }
    if !allowed(n.value) || !(1 <= n.value <= 64) {
      return None;
    }
    Recalls(seen, done, n.value);
    var bit := Bit(n.value);
    if Hits(seen, bit) {
      return None;
    }
    RemembersNext(seen, done, e, n.value);
    r := Some(Or(seen, bit));
  }

  /**
    The bitmask loop decides exactly: every key is an allowed integer in 1..=64 and no key repeats.
    The range test comes before the shift, so no key shifts out of the mask.
   */
  method CheckStrictKeys(m: entries, allowed: nat -> bool) returns (ok: bool)
    ensures ok <==> StrictKeys(m, allowed)
  {
    hide StrictKeys, HasKey, Remembers, KeyAllowed;
    var seen: bv64 := 0;
    RemembersNothing();
    StrictNothing(allowed);
    ghost var done: entries := [];
    for i := 0 to |m|
      invariant done == m[..i] && StrictKeys(done, allowed) && Remembers(seen, done)
    {
      StrictSnoc(done, m[i], allowed);
      if StrictKeys(m, allowed) {
        StrictPrefix(m, i + 1, allowed);
        assert m[..i + 1] == done + [m[i]];
      }
      var next := AdmitKey(seen, done, m[i], allowed);
      if next.None? {
        return false;
      }
      seen := next.value;
      done := done + [m[i]];
    }
    assert m[..|m|] == m;
    ok := true;
  }

  lemma {:induction false} StrictNothing(allowed: nat -> bool)
    ensures StrictKeys([], allowed)
  {
  }

  // ---------------------------------------------------------------- lookups

  lemma {:induction false} MapGetAt(m: entries, i: nat, key: u64)
    requires KeysDistinct(m) && i < |m| && m[i].0 == Int(key)
    ensures MapGet(m, key) == Some(m[i].1)
  {
    if i > 0 {
      assert m[0].0 != m[i].0;
      MapGetAt(m[1..], i - 1, key);
    }
  }

  lemma {:induction false} MapGetFound(m: entries, key: u64)
    ensures MapGet(m, key).Some? ==> exists i :: 0 <= i < |m| && m[i] == (Int(key), MapGet(m, key).value)
    ensures MapGet(m, key).None? ==> forall i | 0 <= i < |m| :: m[i].0 != Int(key)
  {
    if m != [] && m[0].0 != Int(key) {
      MapGetFound(m[1..], key);
      if MapGet(m, key).Some? {
        var i :| 0 <= i < |m[1..]| && m[1..][i] == (Int(key), MapGet(m, key).value);
        assert m[i + 1] == (Int(key), MapGet(m, key).value);
      }
    } else if m != [] {
      assert m[0] == (Int(key), MapGet(m, key).value);
    }
  }

  lemma {:induction false} AbsentKey(m: entries, key: u64)
    requires forall i | 0 <= i < |m| :: m[i].0 != Int(key)
    ensures MapGet(m, key) == None
  {
    MapGetFound(m, key);
  }

  lemma {:induction false} ForbiddenKey(m: entries, allowed: nat -> bool, key: u64)
    requires StrictKeys(m, allowed) && !allowed(key)
    ensures MapGet(m, key) == None
  {
    AbsentKey(m, key);
  }

  /** Encoded unsigned integers are ordered as the integers are. */
  lemma {:induction false} UintOrder(a: u64, b: u64)
    ensures Less(Encode(Int(a)), Encode(Int(b))) <==> a < b
  {
    Pow256Values();
    var x, y := Encode(Int(a)), Encode(Int(b));
    if a == b {
      LessIrreflexive(x);
    } else if x[0] == y[0] && |x| == |y| {
      assert Less(x, y) <==> Less(x[1..], y[1..]);
      LessIsNumeric(x[1..], y[1..]);
      UintTail(a);
      UintTail(b);
    }
  }

  lemma {:induction false} UintTail(a: u64)
    ensures a >= 24 ==> FromBE(Head(0, a)[1..]) == a
  {
    HeadDenotes(0, a);
  }

  /** All keys are unsigned integers, strictly ascending. */
  predicate UintKeysAscend(m: entries) {
    && (forall i | 0 <= i < |m| :: m[i].0.Int? && m[i].0.n >= 0)
    && forall i | 0 <= i < |m| - 1 :: m[i].0.n < m[i + 1].0.n
  }

  /** For unsigned integer keys the canonical key order is numeric order. */
  lemma {:induction false} UintKeysCanonical(m: entries)
    requires forall i | 0 <= i < |m| :: m[i].0.Int? && m[i].0.n >= 0
    ensures UintKeysAscend(m) <==> KeysAscend(m)
  {
    forall i | 0 <= i < |m| - 1
      ensures Less(Encode(m[i].0), Encode(m[i + 1].0)) <==> m[i].0.n < m[i + 1].0.n
    {
      UintOrder(m[i].0.n, m[i + 1].0.n);
    }
  }

  lemma {:induction false} UintKeysPairwise(m: entries, i: nat, j: nat)
    requires UintKeysAscend(m) && i < j < |m|
    ensures m[i].0.n < m[j].0.n
  {
    if i + 1 < j {
      UintKeysPairwise(m, i, j - 1);
      assert m[j - 1].0.n < m[j - 1 + 1].0.n;
    }
  }

  lemma {:induction false} UintKeysDistinct(m: entries)
    requires UintKeysAscend(m)
    ensures KeysDistinct(m)
  {
    forall i, j | 0 <= i < j < |m| ensures m[i].0 != m[j].0 {
      UintKeysPairwise(m, i, j);
    }
  }

  /** A map with ascending unsigned keys is determined by its lookups. */
  lemma {:induction false} SameLookupsSameMap(m: entries, w: entries)
    requires UintKeysAscend(m) && UintKeysAscend(w)
    requires forall k: u64 :: MapGet(m, k) == MapGet(w, k)
    ensures m == w
  {
    if m == [] || w == [] {
      FirstLookup(m);
      FirstLookup(w);
    } else {
      FirstKeyIsLeast(m, w);
      FirstKeyIsLeast(w, m);
      assert MapGet(m, m[0].0.n) == MapGet(w, m[0].0.n);
      assert m[0] == w[0];
      forall k: u64 ensures MapGet(m[1..], k) == MapGet(w[1..], k) {
        if k == m[0].0.n {
          FirstKeyOnce(m);
          FirstKeyOnce(w);
        } else {
          assert MapGet(m, k) == MapGet(w, k);
        }
      }
      SameLookupsSameMap(m[1..], w[1..]);
      assert m == [m[0]] + m[1..] && w == [w[0]] + w[1..];
    }
  }

  lemma {:induction false} FirstLookup(m: entries)
    requires UintKeysAscend(m)
    ensures m != [] ==> exists k: u64 :: MapGet(m, k).Some?
  {
    if m != [] {
      assert MapGet(m, m[0].0.n).Some?;
    }
  }

  lemma {:induction false} FirstKeyIsLeast(m: entries, w: entries)
    requires m != [] && w != [] && UintKeysAscend(m) && UintKeysAscend(w)
    requires forall k: u64 :: MapGet(m, k) == MapGet(w, k)
    ensures w[0].0.n <= m[0].0.n
  {
    var k := m[0].0.n;
    assert MapGet(m, k) == Some(m[0].1);
    MapGetFound(w, k);
    var j :| 0 <= j < |w| && w[j].0 == Int(k);
    if j > 0 {
      UintKeysPairwise(w, 0, j);
    }
  }

  lemma {:induction false} FirstKeyOnce(m: entries)
    requires m != [] && UintKeysAscend(m)
    ensures MapGet(m[1..], m[0].0.n) == None
  {
    MapGetFound(m[1..], m[0].0.n);
    if MapGet(m[1..], m[0].0.n).Some? {
      var i :| 0 <= i < |m[1..]| && m[1..][i].0 == Int(m[0].0.n);
      UintKeysPairwise(m, 0, i + 1);
    }
  }

  /** A strictly decoded map that passes the key check has its keys in numeric order. */
  lemma {:induction false} StrictKeysAscend(m: entries, allowed: nat -> bool, cap: nat)
    requires Legal(MapV(m), 1, cap) && StrictKeys(m, allowed)
    ensures UintKeysAscend(m)
  {
    forall i | 0 <= i < |m| ensures m[i].0.Int? && m[i].0.n >= 0 {
      assert KeyAllowed(m[i].0, allowed);
    }
    UintKeysCanonical(m);
  }
}
