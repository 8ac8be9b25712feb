/**
  The high-water marks: the part of a keystore body an anchor records. Their canonical payload, its
  digest, seeding a body from decoded marks, and the order in which marks may move.
 */
module Marks {
  import opened Wrappers
  import opened Bytes
  import opened Cbor
  import opened Crypto
  import opened Emit
  import opened Keystore
  import opened MapAccess

  /** Nothing larger could be adopted: a sealed body has to hold its marks, and it is capped at this size. */
  const MAX_MARKS_PAYLOAD_LEN: u64 := MAX_KEYSTORE_BLOB_SIZE

  function MarksDomain(): bytes {
    Ascii("2d-hsm/agent-anchor-marks/v1\0")
  }

  datatype DecodedRow = DecodedRow(
    authority: bytes32,
    scopeClass: u8,
    scopeTarget: bytes,
    highestAcceptedCounter: u64)

  datatype DecodedMarks = DecodedMarks(
    rows: seq<DecodedRow>,
    cumulativeNativeSpend: bytes32,
    lifetimeSpend: bytes32,
    strictRecoveryCounter: u64)

  // ---------------------------------------------------------------- row order

  /** Rust's tuple order on (authority, scope_class, scope_target). */
  predicate LaneBefore(a: Lane, b: Lane) {
    || Less(a.authority, b.authority)
    || (a.authority == b.authority
        && (a.scopeClass < b.scopeClass || (a.scopeClass == b.scopeClass && Less(a.scopeTarget, b.scopeTarget))))
  }

  lemma {:induction false} LaneBeforeIrreflexive(a: Lane)
    ensures !LaneBefore(a, a)
  {
    LessIrreflexive(a.authority);
    LessIrreflexive(a.scopeTarget);
  }

  lemma {:induction false} LaneBeforeTransitive(a: Lane, b: Lane, c: Lane)
    requires LaneBefore(a, b) && LaneBefore(b, c)
    ensures LaneBefore(a, c)
  {
    if Less(a.authority, b.authority) && Less(b.authority, c.authority) {
      LessTransitive(a.authority, b.authority, c.authority);
    } else if a.authority == b.authority == c.authority && a.scopeClass == b.scopeClass == c.scopeClass {
      LessTransitive(a.scopeTarget, b.scopeTarget, c.scopeTarget);
    }
  }

  lemma {:induction false} LaneBeforeTotal(a: Lane, b: Lane)
    ensures a == b || LaneBefore(a, b) || LaneBefore(b, a)
  {
    LessTotal(a.authority, b.authority);
    LessTotal(a.scopeTarget, b.scopeTarget);
  }

  function RowLane(r: DecodedRow): Lane {
    Lane(r.authority, r.scopeClass, r.scopeTarget)
  }

  predicate RowsAscend(rows: seq<DecodedRow>) {
    forall i | 0 <= i < |rows| - 1 :: LaneBefore(RowLane(rows[i]), RowLane(rows[i + 1]))
  }

  lemma {:induction false} RowsPairwise(rows: seq<DecodedRow>, i: nat, j: nat)
    requires RowsAscend(rows) && i < j < |rows|
    ensures LaneBefore(RowLane(rows[i]), RowLane(rows[j]))
  {
    if i + 1 < j {
      RowsPairwise(rows, i, j - 1);
      assert LaneBefore(RowLane(rows[j - 1]), RowLane(rows[j - 1 + 1]));
      LaneBeforeTransitive(RowLane(rows[i]), RowLane(rows[j - 1]), RowLane(rows[j]));
    }
  }

  lemma {:induction false} RowsDistinct(rows: seq<DecodedRow>, i: nat, j: nat)
    requires RowsAscend(rows) && i < j < |rows|
    ensures RowLane(rows[i]) != RowLane(rows[j])
  {
    RowsPairwise(rows, i, j);
    LaneBeforeIrreflexive(RowLane(rows[i]));
  }

  /** What the marks decoder may accept: rows strictly ascending, row count and targets capped. */
  predicate LegalMarks(m: DecodedMarks, maxRows: u64) {
    && |m.rows| <= maxRows
    && RowsAscend(m.rows)
    && forall i | 0 <= i < |m.rows| :: |m.rows[i].scopeTarget| <= MARKS_SCOPE_TARGET_MAX_LEN
  }

  // ---------------------------------------------------------------- payload

  function RowValue(r: DecodedRow): Value {
    Arr([Bstr(r.authority), Int(r.scopeClass), Bstr(r.scopeTarget), Int(r.highestAcceptedCounter)])
  }

  function RowValues(rows: seq<DecodedRow>): (vs: seq<Value>)
    ensures |vs| == |rows|
    ensures forall i | 0 <= i < |rows| :: vs[i] == RowValue(rows[i])
  {
    if rows == [] then [] else [RowValue(rows[0])] + RowValues(rows[1..])
  }

  function MarksEntries(m: DecodedMarks): entries {
    [(Int(1), Arr(RowValues(m.rows))),
     (Int(2), Bstr(m.cumulativeNativeSpend)),
     (Int(3), Bstr(m.lifetimeSpend)),
     (Int(4), Int(m.strictRecoveryCounter))]
  }

  /** The frozen marks payload: the canonical encoding of the four-entry marks map. */
  function MarksPayload(m: DecodedMarks): bytes {
    Encode(MapV(MarksEntries(m)))
  }

  function DigestOf(p: Primitives, m: DecodedMarks): bytes32 {
    (p.sha3)(MarksDomain() + MarksPayload(m))
  }

  lemma {:induction false} MarksSized(m: DecodedMarks)
    requires |m.rows| <= U64_MAX && forall i | 0 <= i < |m.rows| :: |m.rows[i].scopeTarget| <= U64_MAX
    ensures Sized(MapV(MarksEntries(m)))
  {
    forall i | 0 <= i < |m.rows| ensures Sized(RowValues(m.rows)[i]) {
      var items := RowValue(m.rows[i]).items;
      assert Sized(items[0]) && Sized(items[1]) && Sized(items[2]) && Sized(items[3]);
    }
    var es := MarksEntries(m);
    assert forall i | 0 <= i < 4 :: Sized(es[i].0);
    assert Sized(es[0].1) && Sized(es[1].1) && Sized(es[2].1) && Sized(es[3].1);
  }

  lemma {:induction false} LegalMarksSized(m: DecodedMarks, maxRows: u64)
    requires LegalMarks(m, maxRows)
    ensures Sized(MapV(MarksEntries(m)))
  {
    MarksSized(m);
  }

  /** One payload, one set of marks. */
  lemma {:induction false} MarksPayloadInjective(m: DecodedMarks, w: DecodedMarks)
    requires Sized(MapV(MarksEntries(m))) && Sized(MapV(MarksEntries(w)))
    requires MarksPayload(m) == MarksPayload(w)
    ensures m == w
  {
    EncodeInjective(MapV(MarksEntries(m)), MapV(MarksEntries(w)));
    var es, fs := MarksEntries(m), MarksEntries(w);
    assert es[0] == fs[0] && es[1] == fs[1] && es[2] == fs[2] && es[3] == fs[3];
    forall i | 0 <= i < |m.rows| ensures m.rows[i] == w.rows[i] {
      assert RowValues(m.rows)[i] == RowValues(w.rows)[i];
      assert RowValue(m.rows[i]).items[0] == RowValue(w.rows[i]).items[0];
      assert RowValue(m.rows[i]).items[1] == RowValue(w.rows[i]).items[1];
      assert RowValue(m.rows[i]).items[2] == RowValue(w.rows[i]).items[2];
      assert RowValue(m.rows[i]).items[3] == RowValue(w.rows[i]).items[3];
    }
  }

  // ---------------------------------------------------------------- marks of a body

  /** The encoder's sort key; the environment only breaks ties between equal lanes. */
  predicate RowLeq(a: CounterEntry, b: CounterEntry) {
    || LaneBefore(LaneOf(a), LaneOf(b))
    || (LaneOf(a) == LaneOf(b) && LessEq(a.environmentIdentifier, b.environmentIdentifier))
  }

  function Insert(c: CounterEntry, xs: seq<CounterEntry>): seq<CounterEntry> {
    if xs == [] || RowLeq(c, xs[0]) then [c] + xs else [xs[0]] + Insert(c, xs[1..])
  }

  /** `rows.sort_by(..)` with the comparator above. */
  function SortRows(xs: seq<CounterEntry>): seq<CounterEntry> {
    if xs == [] then [] else Insert(xs[0], SortRows(xs[1..]))
  }

  predicate CountersAscend(xs: seq<CounterEntry>) {
    forall i | 0 <= i < |xs| - 1 :: LaneBefore(LaneOf(xs[i]), LaneOf(xs[i + 1]))
  }

  lemma {:induction false} InsertIsPermutation(c: CounterEntry, xs: seq<CounterEntry>)
    ensures multiset(Insert(c, xs)) == multiset(xs) + multiset{c}
  {
    if xs != [] && !RowLeq(c, xs[0]) {
      InsertIsPermutation(c, xs[1..]);
      assert xs == [xs[0]] + xs[1..];
    }
  }

  lemma {:induction false} SortIsPermutation(xs: seq<CounterEntry>)
    ensures multiset(SortRows(xs)) == multiset(xs)
    ensures |SortRows(xs)| == |xs|
  {
    if xs != [] {
      SortIsPermutation(xs[1..]);
      InsertIsPermutation(xs[0], SortRows(xs[1..]));
      assert xs == [xs[0]] + xs[1..];
    }
    assert |multiset(SortRows(xs))| == |multiset(xs)|;
  }

  lemma {:induction false} SortMembers(xs: seq<CounterEntry>, c: CounterEntry)
    ensures c in SortRows(xs) <==> c in xs
  {
    SortIsPermutation(xs);
    assert c in multiset(SortRows(xs)) <==> c in multiset(xs);
  }

  lemma {:induction false} InsertAscends(c: CounterEntry, xs: seq<CounterEntry>)
    requires CountersAscend(xs) && forall x | x in xs :: LaneOf(x) != LaneOf(c)
    ensures CountersAscend(Insert(c, xs))
    ensures Insert(c, xs) != []
    ensures Insert(c, xs)[0] == c || (xs != [] && Insert(c, xs)[0] == xs[0])
  {
    if xs != [] && !RowLeq(c, xs[0]) {
      assert xs[0] in xs;
      LaneBeforeTotal(LaneOf(c), LaneOf(xs[0]));
      InsertAscends(c, xs[1..]);
      var r, t := Insert(c, xs), Insert(c, xs[1..]);
      assert r == [xs[0]] + t;
      assert t[0] == c || t[0] == xs[1];
      assert LaneBefore(LaneOf(xs[0]), LaneOf(t[0]));
      forall i | 0 <= i < |r| - 1 ensures LaneBefore(LaneOf(r[i]), LaneOf(r[i + 1])) {
        if i > 0 {
          assert r[i] == t[i - 1] && r[i + 1] == t[i - 1 + 1];
        }
      }
    } else if xs != [] {
      assert xs[0] in xs;
    }
  }

  /** With one row per lane the sorted table is strictly ascending, whatever the arrival order was. */
  lemma {:induction false} SortAscends(xs: seq<CounterEntry>)
    requires UniqueLanes(xs)
    ensures CountersAscend(SortRows(xs))
  {
    if xs != [] {
      SortAscends(xs[1..]);
      forall x | x in SortRows(xs[1..]) ensures LaneOf(x) != LaneOf(xs[0]) {
        SortMembers(xs[1..], x);
        var i :| 0 <= i < |xs[1..]| && xs[1..][i] == x;
        assert xs[i + 1] == x;
      }
      InsertAscends(xs[0], SortRows(xs[1..]));
    }
  }

  /** Sorting what is already strictly ascending changes nothing. */
  lemma {:induction false} SortAscending(xs: seq<CounterEntry>)
    requires CountersAscend(xs)
    ensures SortRows(xs) == xs
  {
    if xs != [] {
      SortAscending(xs[1..]);
      if |xs| > 1 {
        assert LaneBefore(LaneOf(xs[0]), LaneOf(xs[0 + 1]));
      }
      assert xs == [xs[0]] + xs[1..];
    }
  }

  function RowOf(c: CounterEntry): DecodedRow {
    DecodedRow(c.authority, c.scopeClass, c.scopeTarget, c.highestAcceptedCounter)
  }

  function RowsOf(cs: seq<CounterEntry>): (rows: seq<DecodedRow>)
    ensures |rows| == |cs|
    ensures forall i | 0 <= i < |cs| :: rows[i] == RowOf(cs[i])
  {
    if cs == [] then [] else [RowOf(cs[0])] + RowsOf(cs[1..])
  }

  /** The marks of a body; the environment is folded out. */
  function MarksOf(b: KeystoreBody): DecodedMarks {
    DecodedMarks(RowsOf(SortRows(b.counters)), b.faucet.cumulativeNativeSpend, b.faucet.lifetimeSpend,
        b.strictRecoveryCounter)
  }

  /** The body's marks fit one marks reply. Sealing lets nothing else through. */
  predicate MarksFit(b: KeystoreBody) {
    |MarksPayload(MarksOf(b))| <= MAX_MARKS_PAYLOAD_LEN
  }

  /** `compute_local_marks_digest` */
  function LocalDigest(p: Primitives, b: KeystoreBody): bytes32 {
    DigestOf(p, MarksOf(b))
  }

  /** Every body that passes validation has marks the strict decoder accepts. */
  lemma {:induction false} ValidBodyHasLegalMarks(b: KeystoreBody)
    requires ValidBody(b)
    ensures LegalMarks(MarksOf(b), MAX_COUNTER_ENTRIES)
  {
    SortIsPermutation(b.counters);
    SortAscends(b.counters);
    var cs := SortRows(b.counters);
    forall i | 0 <= i < |cs| ensures |RowsOf(cs)[i].scopeTarget| <= MARKS_SCOPE_TARGET_MAX_LEN {
      SortMembers(b.counters, cs[i]);
    }
  }

  method EncodeRow(out: bytes, c: CounterEntry) returns (r: bytes)
    requires |c.scopeTarget| <= U64_MAX
    ensures r == out + Encode(RowValue(RowOf(c)))
  {
    hide Head, Encode;
    ghost var items: seq<Value> := [];
    r := PutUint(out, 4, 4);
    ghost var base := r;
    EmitNothing(base);
    r := PutBytes(r, c.authority);
    items := Element(base, items, Bstr(c.authority));
    r := PutNat(r, c.scopeClass);
    items := Element(base, items, Int(c.scopeClass));
    r := PutBytes(r, c.scopeTarget);
    items := Element(base, items, Bstr(c.scopeTarget));
    r := PutNat(r, c.highestAcceptedCounter);
    items := Element(base, items, Int(c.highestAcceptedCounter));
    assert items == RowValue(RowOf(c)).items;
    EncodeArr(out, items);
  }

  method EncodeRows(out: bytes, rows: seq<CounterEntry>) returns (r: bytes)
    requires |rows| <= U64_MAX && forall i | 0 <= i < |rows| :: |rows[i].scopeTarget| <= U64_MAX
    ensures r == out + Encode(Arr(RowValues(RowsOf(rows))))
  {
    hide Head, Encode, EncodeItems, RowsOf, RowValues;
    r := PutUint(out, 4, |rows|);
    ghost var base := r;
    EmitNothing(base);
    ghost var all := RowValues(RowsOf(rows));
    ghost var items: seq<Value> := [];
    for i := 0 to |rows|
      invariant r == base + EncodeItems(items)
      invariant items == all[..i]
    {
      r := EncodeRow(r, rows[i]);
      items := Element(base, items, RowValue(RowOf(rows[i])));
    }
    assert items == all;
    EncodeArr(out, items);
  }

  /** `encode_marks_payload`: sort the rows, then emit the four entries. */
  method EncodeMarksPayload(b: KeystoreBody) returns (out: bytes)
    requires |b.counters| <= U64_MAX && forall c | c in b.counters :: |c.scopeTarget| <= U64_MAX
    ensures out == MarksPayload(MarksOf(b))
  {
    hide Head, Encode, SortRows, EncodeEntries, EncodeItems, RowsOf, RowValues;
    var rows := SortRows(b.counters);
    SortIsPermutation(b.counters);
    forall i | 0 <= i < |rows| ensures |rows[i].scopeTarget| <= U64_MAX {
      SortMembers(b.counters, rows[i]);
    }
    ghost var m := MarksOf(b);
    out := PutMapHeader([], 4);
    ghost var base, done := out, [];
    out := PutNat(out, 1);
    out := EncodeRows(out, rows);
    done := Entry(base, done, Int(1), Arr(RowValues(m.rows)));
    out, done := PutBytesEntry(out, base, done, 2, b.faucet.cumulativeNativeSpend);
    out, done := PutBytesEntry(out, base, done, 3, b.faucet.lifetimeSpend);
    out, done := PutUintEntry(out, base, done, 4, b.strictRecoveryCounter);
    assert done == MarksEntries(m);
    EncodeMap([], done);
  }

  // ---------------------------------------------------------------- seeding

  function CounterOf(env: bytes, r: DecodedRow): CounterEntry {
    CounterEntry(r.authority, env, r.scopeClass, r.scopeTarget, r.highestAcceptedCounter)
  }

  function CountersOf(env: bytes, rows: seq<DecodedRow>): (cs: seq<CounterEntry>)
    ensures |cs| == |rows|
    ensures forall i | 0 <= i < |rows| :: cs[i] == CounterOf(env, rows[i])
  {
    if rows == [] then [] else [CounterOf(env, rows[0])] + CountersOf(env, rows[1..])
  }

  /** The four marks surfaces and the epoch overwritten from `m`, everything else kept. */
  function Seeded(b: KeystoreBody, m: DecodedMarks, epoch: u64): KeystoreBody {
    b.(counters := CountersOf(b.config.environmentIdentifier, m.rows),
       faucet := b.faucet.(cumulativeNativeSpend := m.cumulativeNativeSpend, lifetimeSpend := m.lifetimeSpend),
       strictRecoveryCounter := m.strictRecoveryCounter,
       freshnessEpoch := epoch)
  }

  /**
    `seed_marks_forward`: overwrite the four marks surfaces and the epoch in place, then validate. On
    a validation error the cell stays overwritten; its owner discards it.
   */
  method SeedMarksForward(cell: KeystoreCell, m: DecodedMarks, epoch: u64) returns (r: Result<(), KeystoreError>)
    modifies cell
    ensures cell.body == Seeded(old(cell.body), m, epoch)
    ensures r == if ValidBody(cell.body) then Ok(()) else Err(Invalid)
  {
    hide ValidBody;
    var env := cell.body.config.environmentIdentifier;
    var counters: seq<CounterEntry> := [];
    for i := 0 to |m.rows|
      invariant counters == CountersOf(env, m.rows)[..i]
      invariant cell.body == old(cell.body)
    {
      counters := counters + [CounterOf(env, m.rows[i])];
    }
    assert counters == CountersOf(env, m.rows);
    cell.body := cell.body.(counters := counters);
    cell.body := cell.body.(faucet := cell.body.faucet.(cumulativeNativeSpend := m.cumulativeNativeSpend));
    cell.body := cell.body.(faucet := cell.body.faucet.(lifetimeSpend := m.lifetimeSpend));
    cell.body := cell.body.(strictRecoveryCounter := m.strictRecoveryCounter);
    cell.body := cell.body.(freshnessEpoch := epoch);
    r := if ValidBody(cell.body) then Ok(()) else Err(Invalid);
  }

  /** Seeding is undone by reading the marks back, so the candidate re-encodes to the same payload. */
  lemma {:induction false} SeedThenRead(b: KeystoreBody, m: DecodedMarks, epoch: u64)
    requires RowsAscend(m.rows)
    ensures MarksOf(Seeded(b, m, epoch)) == m
  {
    var cs := CountersOf(b.config.environmentIdentifier, m.rows);
    forall i | 0 <= i < |cs| - 1 ensures LaneBefore(LaneOf(cs[i]), LaneOf(cs[i + 1])) {
      assert LaneOf(cs[i]) == RowLane(m.rows[i]) && LaneOf(cs[i + 1]) == RowLane(m.rows[i + 1]);
    }
    SortAscending(cs);
    assert RowsOf(cs) == m.rows;
  }

  /** Seeding a valid body with decoded marks cannot fail validation. */
  lemma {:induction false} SeedKeepsValid(b: KeystoreBody, m: DecodedMarks, epoch: u64)
    requires ValidBody(b) && LegalMarks(m, MAX_COUNTER_ENTRIES)
    ensures ValidBody(Seeded(b, m, epoch))
  {
    var cs := CountersOf(b.config.environmentIdentifier, m.rows);
    forall i, j | 0 <= i < j < |cs| ensures LaneOf(cs[i]) != LaneOf(cs[j]) {
      RowsDistinct(m.rows, i, j);
    }
  }

  // ---------------------------------------------------------------- lookups and dominance

  /** First row of a lane. */
  function FindRow(rows: seq<DecodedRow>, lane: Lane): (r: Option<DecodedRow>)
    ensures r.Some? ==> r.value in rows && RowLane(r.value) == lane
    ensures r.None? ==> forall i | 0 <= i < |rows| :: RowLane(rows[i]) != lane
  {
    if rows == [] then None
    else if RowLane(rows[0]) == lane then Some(rows[0])
    else FindRow(rows[1..], lane)
  }

  function MarkHighest(rows: seq<DecodedRow>, lane: Lane): u64 {
    match FindRow(rows, lane) case Some(r) => r.highestAcceptedCounter case None => 0
  }

  lemma {:induction false} HighestInTable(counters: seq<CounterEntry>, env: bytes, lane: Lane)
    requires forall i | 0 <= i < |counters| :: counters[i].environmentIdentifier == env
    ensures Highest(counters, env, lane) == MarkHighest(RowsOf(counters), lane)
  {
    if counters != [] && LaneOf(counters[0]) != lane {
      HighestInTable(counters[1..], env, lane);
      assert RowsOf(counters)[1..] == RowsOf(counters[1..]);
    }
  }

  /** Reading a counter off the marks is reading it off the table. */
  lemma {:induction false} MarksKeepLookups(b: KeystoreBody, lane: Lane)
    requires ValidBody(b)
    ensures MarkHighest(MarksOf(b).rows, lane) == Highest(b.counters, b.config.environmentIdentifier, lane)
  {
    var env, cs := b.config.environmentIdentifier, SortRows(b.counters);
    forall i | 0 <= i < |cs| ensures cs[i].environmentIdentifier == env {
      SortMembers(b.counters, cs[i]);
    }
    HighestInTable(cs, env, lane);
    HighestAt(cs, env, lane);
    match FindLane(cs, env, lane)
    case Some(i) =>
      SortMembers(b.counters, cs[i]);
      var j :| 0 <= j < |b.counters| && b.counters[j] == cs[i];
      HighestIs(b.counters, env, j);
    case None =>
      HighestAt(b.counters, env, lane);
      if FindLane(b.counters, env, lane).Some? {
        var c := b.counters[FindLane(b.counters, env, lane).value];
        SortMembers(b.counters, c);
        var j :| 0 <= j < |cs| && cs[j] == c;
        FindLaneFirst(cs, env, lane, j);
      }
  }

  /** The row test of the belt: the lane is still there and has not gone down. */
  predicate RowCovered(rows: seq<DecodedRow>, local: CounterEntry) {
    var r := FindRow(rows, LaneOf(local));
    r.Some? && r.value.highestAcceptedCounter >= local.highestAcceptedCounter
  }

  /** `high_water_dominates`: no row dropped or lowered, no spend lowered. */
  predicate HighWaterDominates(high: DecodedMarks, counters: seq<CounterEntry>, cumulative: bytes32,
      lifetime: bytes32) {
    && (forall i | 0 <= i < |counters| :: RowCovered(high.rows, counters[i]))
    && LessEq(cumulative, high.cumulativeNativeSpend)
    && LessEq(lifetime, high.lifetimeSpend)
  }

  /** `marks_dominate_local`: the same against a body, and the recovery counter not lowered either. */
  predicate Dominates(m: DecodedMarks, b: KeystoreBody) {
    && HighWaterDominates(m, b.counters, b.faucet.cumulativeNativeSpend, b.faucet.lifetimeSpend)
    && m.strictRecoveryCounter >= b.strictRecoveryCounter
  }

  method MarksDominateLocal(m: DecodedMarks, b: KeystoreBody) returns (ok: bool)
    ensures ok <==> Dominates(m, b)
  {
    for i := 0 to |b.counters|
      invariant forall j | 0 <= j < i :: RowCovered(m.rows, b.counters[j])
    {
      match FindRow(m.rows, LaneOf(b.counters[i]))
      case Some(r) =>
        if r.highestAcceptedCounter < b.counters[i].highestAcceptedCounter {
          return false;
        }
      case None =>
        return false;
    }
    ok := && LessEq(b.faucet.cumulativeNativeSpend, m.cumulativeNativeSpend)
          && LessEq(b.faucet.lifetimeSpend, m.lifetimeSpend)
          && m.strictRecoveryCounter >= b.strictRecoveryCounter;
  }

  /** What dominance is for: after seeding, no lane and no spend (as a 256-bit number) is lower. */
  lemma {:induction false} DominanceNeverLowers(m: DecodedMarks, b: KeystoreBody, epoch: u64, lane: Lane)
    requires Dominates(m, b)
    ensures var s := Seeded(b, m, epoch);
            var env := b.config.environmentIdentifier;
            && Highest(b.counters, env, lane) <= Highest(s.counters, env, lane)
            && FromBE(b.faucet.cumulativeNativeSpend) <= FromBE(s.faucet.cumulativeNativeSpend)
            && FromBE(b.faucet.lifetimeSpend) <= FromBE(s.faucet.lifetimeSpend)
            && b.strictRecoveryCounter <= s.strictRecoveryCounter
  {
    var env := b.config.environmentIdentifier;
    HighestAt(b.counters, env, lane);
    var cs := CountersOf(env, m.rows);
    HighestInTable(cs, env, lane);
    assert RowsOf(cs) == m.rows;
    LessEqIsNumeric(b.faucet.cumulativeNativeSpend, m.cumulativeNativeSpend);
    LessEqIsNumeric(b.faucet.lifetimeSpend, m.lifetimeSpend);
    match FindLane(b.counters, env, lane)
    case Some(i) => assert RowCovered(m.rows, b.counters[i]);
    case None =>
  }

  lemma {:induction false} FindRowAt(rows: seq<DecodedRow>, i: nat)
    requires RowsAscend(rows) && i < |rows|
    ensures FindRow(rows, RowLane(rows[i])) == Some(rows[i])
  {
    var r := FindRow(rows, RowLane(rows[i])).value;
    var j :| 0 <= j < |rows| && rows[j] == r;
    if i < j {
      RowsDistinct(rows, i, j);
    } else if j < i {
      RowsDistinct(rows, j, i);
    }
  }

  /** Dominance is reflexive on valid bodies ... */
  lemma {:induction false} DominanceReflexive(b: KeystoreBody)
    requires ValidBody(b)
    ensures Dominates(MarksOf(b), b)
  {
    ValidBodyHasLegalMarks(b);
    var cs := SortRows(b.counters);
    forall i | 0 <= i < |b.counters| ensures RowCovered(MarksOf(b).rows, b.counters[i]) {
      SortMembers(b.counters, b.counters[i]);
      var j :| 0 <= j < |cs| && cs[j] == b.counters[i];
      FindRowAt(MarksOf(b).rows, j);
    }
  }

  lemma {:induction false} RowInMarks(b: KeystoreBody, i: nat) returns (j: nat)
    requires i < |b.counters|
    ensures j < |MarksOf(b).rows| && MarksOf(b).rows[j] == RowOf(b.counters[i])
  {
    SortMembers(b.counters, b.counters[i]);
    var cs := SortRows(b.counters);
    j :| 0 <= j < |cs| && cs[j] == b.counters[i];
  }

  lemma {:induction false} MarksRow(b: KeystoreBody, j: nat) returns (i: nat)
    requires j < |MarksOf(b).rows|
    ensures i < |b.counters| && MarksOf(b).rows[j] == RowOf(b.counters[i])
  {
    var cs := SortRows(b.counters);
    SortMembers(b.counters, cs[j]);
    i :| 0 <= i < |b.counters| && b.counters[i] == cs[j];
  }

  /** What dominates a body dominates every body with the same marks. */
  lemma {:induction false} DominanceByMarks(m: DecodedMarks, b: KeystoreBody, c: KeystoreBody)
    requires MarksOf(b) == MarksOf(c) && Dominates(m, b)
    ensures Dominates(m, c)
  {
    hide SortRows, FindRow;
    forall i | 0 <= i < |c.counters| ensures RowCovered(m.rows, c.counters[i]) {
      var j := RowInMarks(c, i);
      var k := MarksRow(b, j);
      assert RowCovered(m.rows, b.counters[k]);
    }
  }

  /** Dominance composes through any body in between. */
  lemma {:induction false} DominanceChains(m: DecodedMarks, c: KeystoreBody, b: KeystoreBody)
    requires Dominates(MarksOf(c), b) && Dominates(m, c)
    ensures Dominates(m, b)
  {
    hide SortRows;
    forall i | 0 <= i < |b.counters| ensures RowCovered(m.rows, b.counters[i]) {
      assert RowCovered(MarksOf(c).rows, b.counters[i]);
      var r := FindRow(MarksOf(c).rows, LaneOf(b.counters[i])).value;
      var j :| 0 <= j < |MarksOf(c).rows| && MarksOf(c).rows[j] == r;
      var k := MarksRow(c, j);
      assert RowCovered(m.rows, c.counters[k]);
    }
    LessEqTransitive(b.faucet.cumulativeNativeSpend, c.faucet.cumulativeNativeSpend, m.cumulativeNativeSpend);
    LessEqTransitive(b.faucet.lifetimeSpend, c.faucet.lifetimeSpend, m.lifetimeSpend);
  }

  lemma {:induction false} LessEqTransitive(a: bytes, b: bytes, c: bytes)
    requires LessEq(a, b) && LessEq(b, c)
    ensures LessEq(a, c)
  {
    if Less(a, b) && Less(b, c) {
      LessTransitive(a, b, c);
    }
  }

  /** ... and composes along chained adopts. */
  lemma {:induction false} DominanceTransitive(m1: DecodedMarks, m2: DecodedMarks, b: KeystoreBody, epoch: u64)
    requires RowsAscend(m1.rows) && Dominates(m1, b) && Dominates(m2, Seeded(b, m1, epoch))
    ensures Dominates(m2, b)
  {
    hide Dominates, MarksOf;
    SeedThenRead(b, m1, epoch);
    DominanceChains(m2, Seeded(b, m1, epoch), b);
  }

  /** Epoch and structural version are not marks: committing moves neither the payload nor the digest. */
  lemma {:induction false} EpochBumpKeepsMarks(p: Primitives, b: KeystoreBody, bumpsStructural: bool)
    ensures var r := AdvancedEpoch(b, bumpsStructural);
            && (r.Ok? <==> b.freshnessEpoch < U64_MAX && (bumpsStructural ==> b.structuralVersion < U64_MAX))
            && (r.Ok? ==> && MarksOf(r.value) == MarksOf(b) && LocalDigest(p, r.value) == LocalDigest(p, b)
                          && r.value.freshnessEpoch == b.freshnessEpoch + 1
                          && r.value.structuralVersion == b.structuralVersion + (if bumpsStructural then 1 else 0)
                          && (ValidBody(b) ==> ValidBody(r.value)))
  {
    hide SortRows, MarksPayload, ValidEntries, ValidCounters, ValidAudit;
  }
}
