/**
  The three positional decoders: the marks payload, the marks response and the commit
  acknowledgement. Each is the exact inverse of its encoder.
 */
module Positional {
  import opened Wrappers
  import opened Bytes
  import opened Cbor
  import opened MapAccess
  import opened Keystore
  import opened Marks
  import opened StrictParsing

  // ---------------------------------------------------------------- marks response

  datatype MarksRespFields = MarksRespFields(
    version: u64,
    chainId: u64,
    environmentIdentifier: bytes,
    epoch: u64,
    nonce: bytes32,
    marksPayload: bytes,
    signature: bytes64)

  function MarksRespEntries(f: MarksRespFields): entries {
    MarksRespSigned(f) + [(Int(13), Bstr(f.signature))]
  }

  /** The signed part: everything but the signature. */
  function MarksRespSigned(f: MarksRespFields): entries {
    [(Int(1), Int(f.version)), (Int(2), Int(f.chainId)), (Int(3), Text(f.environmentIdentifier)),
     (Int(4), Int(f.epoch)), (Int(5), Bstr(f.nonce)), (Int(6), Bstr(f.marksPayload))]
  }

  predicate LegalMarksResp(f: MarksRespFields, maxPayload: u64) {
    |f.environmentIdentifier| <= MAX_STR_LEN && ValidUtf8(f.environmentIdentifier) && |f.marksPayload| <= maxPayload
  }

  ghost predicate MarksRespBytes(bytes: bytes, f: MarksRespFields, maxPayload: u64) {
    LegalMarksResp(f, maxPayload) && bytes == Encode(MapV(MarksRespEntries(f)))
  }

  ghost function DecodedMarksResp(bytes: bytes, maxPayload: u64): (r: Option<MarksRespFields>)
    ensures forall f :: r == Some(f) <==> MarksRespBytes(bytes, f, maxPayload)
  {
    if exists f :: MarksRespBytes(bytes, f, maxPayload) then
      var f :| MarksRespBytes(bytes, f, maxPayload);
      assert forall g | MarksRespBytes(bytes, g, maxPayload) :: f == g by {
        forall g | MarksRespBytes(bytes, g, maxPayload) ensures f == g {
          MarksRespBytesInjective(bytes, f, g, maxPayload, maxPayload);
        }
      }
      Some(f)
    else None
  }

  lemma {:induction false} MarksRespSized(f: MarksRespFields, maxPayload: u64)
    requires LegalMarksResp(f, maxPayload)
    ensures Sized(MapV(MarksRespEntries(f))) && Sized(MapV(MarksRespSigned(f)))
  {
    FlatSized(MarksRespEntries(f));
    FlatSized(MarksRespSigned(f));
  }

  lemma {:induction false} MarksRespSignedDetermines(f: MarksRespFields, g: MarksRespFields)
    requires MarksRespSigned(f) == MarksRespSigned(g)
    ensures f.(signature := g.signature) == g
  {
    var es, fs := MarksRespSigned(f), MarksRespSigned(g);
    assert es[0] == fs[0] && es[1] == fs[1] && es[2] == fs[2] && es[3] == fs[3] && es[4] == fs[4] && es[5] == fs[5];
  }

  lemma {:induction false} MarksRespBytesInjective(bytes: bytes, f: MarksRespFields, g: MarksRespFields, m1: u64,
      m2: u64)
    requires MarksRespBytes(bytes, f, m1) && MarksRespBytes(bytes, g, m2)
    ensures f == g
  {
    MarksRespSized(f, m1);
    MarksRespSized(g, m2);
    EncodeInjective(MapV(MarksRespEntries(f)), MapV(MarksRespEntries(g)));
    var es, fs := MarksRespEntries(f), MarksRespEntries(g);
    assert MarksRespSigned(f) == es[..6] && MarksRespSigned(g) == fs[..6];
    MarksRespSignedDetermines(f, g);
    assert es[6] == fs[6];
  }

  /** A map's bytes after its head. */
  lemma {:induction false} MapBody(bytes: bytes, es: entries, rest: bytes)
    requires |es| <= MAX_MAP_ENTRIES
    requires bytes == Head(5, |es|) + rest
    ensures bytes == Encode(MapV(es)) <==> rest == EncodeEntries(es)
  {
    hide Head, EncodeEntries;
    var h := Head(5, |es|);
    if h + rest == h + EncodeEntries(es) {
      assert rest == (h + rest)[|h|..] == (h + EncodeEntries(es))[|h|..] == EncodeEntries(es);
    }
  }

  lemma {:induction false} MapHead(bytes: bytes, es: entries)
    requires |es| <= MAX_MAP_ENTRIES && bytes == Encode(MapV(es))
    ensures StartsWithHead(bytes, 5, |es|)
  {
    hide Head, EncodeEntries;
    assert Head(5, |es|) == bytes[..|Head(5, |es|)|];
  }

  lemma {:induction false} AllAhead(es: entries, rest: bytes)
    requires rest == EncodeEntries(es)
    ensures Ahead(es, 0, rest)
  {
    assert es[0..] == es;
  }

  /** `map(n)` at the front of the input, where `want` has `n` entries if the input is its encoding. */
  method MapHeader(p: StrictParser, n: u64, ghost bytes: bytes, ghost want: entries) returns (ok: bool)
    requires p.Valid() && p.Rest() == bytes && n <= MAX_MAP_ENTRIES
    requires want != [] ==> |want| == n && bytes == Encode(MapV(want)) && SizedEntries(want)
    modifies p`pos
    ensures p.Valid()
    ensures ok ==> bytes == Head(5, n) + p.Rest() && Reading(p.Rest(), [], want, p.Rest())
    ensures want != [] ==> ok
  {
    hide Head, Encode, Ahead;
    if want != [] {
      MapHead(bytes, want);
    }
    var h := p.TypedHead(5);
    ok := h == Some(n);
    if want != [] {
      MapBody(bytes, want, p.Rest());
      AllAhead(want, p.Rest());
    }
    assert p.Rest() == [] + p.Rest();
  }

  /** All entries read: nothing may follow ... */
  lemma {:induction false} ReadingEnd(s: bytes, done: entries, want: entries, rest: bytes)
    requires Reading(s, done, want, rest) && |done| == |want|
    ensures want != [] ==> rest == []
  {
  }

  /** ... and then the input is the map that was read. */
  lemma {:induction false} Complete(bytes: bytes, s: bytes, done: entries, want: entries, rest: bytes)
    requires |done| <= MAX_MAP_ENTRIES && bytes == Head(5, |done|) + s
    requires Reading(s, done, want, rest) && rest == []
    ensures bytes == Encode(MapV(done))
  {
    MapBody(bytes, done, s);
  }

  /** Keys 1 to 4, which both signed replies start with: version, chain id, environment, epoch. */
  datatype Scope = Scope(version: u64, chainId: u64, environmentIdentifier: bytes, epoch: u64)

  function ScopeEntries(h: Scope): entries {
    [(Int(1), Int(h.version)), (Int(2), Int(h.chainId)), (Int(3), Text(h.environmentIdentifier)),
        (Int(4), Int(h.epoch))]
  }

  predicate LegalScope(h: Scope) {
    |h.environmentIdentifier| <= MAX_STR_LEN && ValidUtf8(h.environmentIdentifier)
  }

  method ReadScope(p: StrictParser, ghost s: bytes, ghost want: entries, ghost wanted: Scope)
      returns (r: Option<Scope>, ghost now: entries)
    requires p.Valid() && Reading(s, [], want, p.Rest())
    requires want != [] ==> |want| > 4 && want[..4] == ScopeEntries(wanted) && LegalScope(wanted)
    modifies p`pos
    ensures p.Valid()
    ensures r.Some? ==> LegalScope(r.value) && now == ScopeEntries(r.value) && Reading(s, now, want, p.Rest())
    ensures want != [] ==> r == Some(wanted)
  {
    hide Head, Encode, EncodeEntries, ValidUtf8, Reading;
    if want != [] {
      assert forall i | 0 <= i < 4 :: want[i] == want[..4][i];
    }
    now := [];
    var version, d1 :- p.KeyedUint(1, s, [], want, 0);
    var chainId, d2 :- p.KeyedUint(2, s, d1, want, 1);
    var env, d3 :- p.KeyedText(3, MAX_STR_LEN, s, d2, want, 2);
    var epoch, d4 :- p.KeyedUint(4, s, d3, want, 3);
    r, now := Some(Scope(version, chainId, env, epoch)), d4;
  }

  lemma {:induction false} MarksRespParts(f: MarksRespFields)
    ensures var es := MarksRespEntries(f);
            var front := ScopeEntries(Scope(f.version, f.chainId, f.environmentIdentifier, f.epoch));
            var back := MarksReplyEntries(f.nonce, f.marksPayload, f.signature);
            |es| == 7 && es == front + back && es[..4] == front && es[4..] == back
  {
  }

  /** Keys 5, 6 and 13 of a marks response. */
  function MarksReplyEntries(nonce: bytes32, payload: bytes, signature: bytes64): entries {
    [(Int(5), Bstr(nonce)), (Int(6), Bstr(payload)), (Int(13), Bstr(signature))]
  }

  method ReadMarksReply(p: StrictParser, maxPayload: u64, ghost s: bytes, ghost d4: entries, ghost want: entries,
                        ghost wanted: (bytes32, bytes, bytes64))
    returns (r: Option<(bytes32, bytes, bytes64)>, ghost now: entries)
    requires p.Valid() && |d4| == 4 && Reading(s, d4, want, p.Rest())
    requires want != [] ==> |want| == 7 && want[4..] == MarksReplyEntries(wanted.0, wanted.1, wanted.2)
    requires |wanted.1| <= maxPayload
    modifies p`pos
    ensures p.Valid()
    ensures r.Some? ==> && |r.value.1| <= maxPayload && Reading(s, now, want, p.Rest())
                        && now == d4 + MarksReplyEntries(r.value.0, r.value.1, r.value.2)
    ensures want != [] ==> r == Some(wanted)
  {
    hide Head, Encode, EncodeEntries, ValidUtf8, Reading;
    if want != [] {
      assert forall i | 4 <= i < 7 :: want[i] == want[4..][i - 4];
    }
    now := [];
    var nonce, d5 :- p.KeyedBytesExact(5, 32, s, d4, want, 4);
    var payload, d6 :- p.KeyedBytes(6, maxPayload, s, d5, want, 5);
    var signature, d13 :- p.KeyedBytesExact(13, 64, s, d6, want, 6);
    r, now := Some((nonce, payload, signature)), d13;
  }

  method ReadMarksResp(bytes: bytes, maxPayload: u64, ghost want: Option<MarksRespFields>)
      returns (r: Option<MarksRespFields>)
    requires want.Some? ==> MarksRespBytes(bytes, want.value, maxPayload)
    ensures want.Some? ==> r == want
    ensures r.Some? ==> MarksRespBytes(bytes, r.value, maxPayload)
  {
    hide Head, Encode, EncodeEntries, ValidUtf8, Reading, MarksRespEntries;
    ghost var f := if want.Some? then want.value
        else MarksRespFields(0, 0, [], 0, seq(32, _ => 0), [], seq(64, _ => 0));
    ghost var w := if want.Some? then MarksRespEntries(f) else [];
    if want.Some? {
      MarksRespSized(f, maxPayload);
      MarksRespParts(f);
    }
    var p := new StrictParser(bytes, MAX_STR_LEN);
    var ok := MapHeader(p, 7, bytes, w);
    if !ok {
      return None;
    }
    ghost var s := p.Rest();
    var scope, d4 :- ReadScope(p, s, w, Scope(f.version, f.chainId, f.environmentIdentifier, f.epoch));
    var reply, d13 :- ReadMarksReply(p, maxPayload, s, d4, w, (f.nonce, f.marksPayload, f.signature));
    if p.pos != |bytes| {
      if want.Some? {
        ReadingEnd(s, d13, w, p.Rest());
      }
      return None;
    }
    var (nonce, payload, signature) := reply;
    var read := MarksRespFields(scope.version, scope.chainId, scope.environmentIdentifier, scope.epoch,
                                nonce, payload, signature);
    MarksRespParts(read);
    Complete(bytes, s, d13, w, p.Rest());
    r := Some(read);
  }

  method StrictDecodeMarksResponse(bytes: bytes, maxPayload: u64) returns (r: Option<MarksRespFields>)
    ensures forall f :: r == Some(f) <==> MarksRespBytes(bytes, f, maxPayload)
    ensures r == DecodedMarksResp(bytes, maxPayload)
  {
    hide MarksRespBytes;
    r := ReadMarksResp(bytes, maxPayload, DecodedMarksResp(bytes, maxPayload));
  }

  // ---------------------------------------------------------------- commit acknowledgement

  datatype CommitAckFields = CommitAckFields(
    version: u64,
    chainId: u64,
    environmentIdentifier: bytes,
    epoch: u64,
    structuralVersion: u64,
    marksDigest: bytes32,
    nonce: bytes32,
    requestId: bytes,
    signature: bytes64)

  function CommitAckEntries(f: CommitAckFields): entries {
    CommitAckSigned(f) + [(Int(13), Bstr(f.signature))]
  }

  function CommitAckSigned(f: CommitAckFields): entries {
    [(Int(1), Int(f.version)), (Int(2), Int(f.chainId)), (Int(3), Text(f.environmentIdentifier)),
     (Int(4), Int(f.epoch)), (Int(5), Int(f.structuralVersion)), (Int(6), Bstr(f.marksDigest)),
     (Int(7), Bstr(f.nonce)), (Int(8), Bstr(f.requestId))]
  }

  predicate LegalCommitAck(f: CommitAckFields, maxRequestId: u64) {
    |f.environmentIdentifier| <= MAX_STR_LEN && ValidUtf8(f.environmentIdentifier) && |f.requestId| <= maxRequestId
  }

  ghost predicate CommitAckBytes(bytes: bytes, f: CommitAckFields, maxRequestId: u64) {
    LegalCommitAck(f, maxRequestId) && bytes == Encode(MapV(CommitAckEntries(f)))
  }

  ghost function DecodedCommitAck(bytes: bytes, maxRequestId: u64): (r: Option<CommitAckFields>)
    ensures forall f :: r == Some(f) <==> CommitAckBytes(bytes, f, maxRequestId)
  {
    if exists f :: CommitAckBytes(bytes, f, maxRequestId) then
      var f :| CommitAckBytes(bytes, f, maxRequestId);
      assert forall g | CommitAckBytes(bytes, g, maxRequestId) :: f == g by {
        forall g | CommitAckBytes(bytes, g, maxRequestId) ensures f == g {
          CommitAckBytesInjective(bytes, f, g, maxRequestId, maxRequestId);
        }
      }
      Some(f)
    else None
  }

  lemma {:induction false} CommitAckSized(f: CommitAckFields, maxRequestId: u64)
    requires LegalCommitAck(f, maxRequestId)
    ensures Sized(MapV(CommitAckEntries(f))) && Sized(MapV(CommitAckSigned(f)))
  {
    FlatSized(CommitAckEntries(f));
    FlatSized(CommitAckSigned(f));
  }

  lemma {:induction false} CommitAckSignedDetermines(f: CommitAckFields, g: CommitAckFields)
    requires CommitAckSigned(f) == CommitAckSigned(g)
    ensures f.(signature := g.signature) == g
  {
    var es, fs := CommitAckSigned(f), CommitAckSigned(g);
    assert es[0] == fs[0] && es[1] == fs[1] && es[2] == fs[2] && es[3] == fs[3];
    assert es[4] == fs[4] && es[5] == fs[5] && es[6] == fs[6] && es[7] == fs[7];
  }

  lemma {:induction false} CommitAckBytesInjective(bytes: bytes, f: CommitAckFields, g: CommitAckFields, m1: u64,
      m2: u64)
    requires CommitAckBytes(bytes, f, m1) && CommitAckBytes(bytes, g, m2)
    ensures f == g
  {
    CommitAckSized(f, m1);
    CommitAckSized(g, m2);
    EncodeInjective(MapV(CommitAckEntries(f)), MapV(CommitAckEntries(g)));
    var es, fs := CommitAckEntries(f), CommitAckEntries(g);
    assert CommitAckSigned(f) == es[..8] && CommitAckSigned(g) == fs[..8];
    CommitAckSignedDetermines(f, g);
    assert es[8] == fs[8];
  }

  lemma {:induction false} CommitAckParts(f: CommitAckFields)
    ensures var es := CommitAckEntries(f);
            && |es| == 9
            && es == ScopeEntries(Scope(f.version, f.chainId, f.environmentIdentifier,
                f.epoch)) + CommitRecordEntries(CommitRecordOf(f))
            && es[..4] == ScopeEntries(Scope(f.version, f.chainId, f.environmentIdentifier, f.epoch))
            && es[4..] == CommitRecordEntries(CommitRecordOf(f))
  {
  }

  /** Keys 5 to 13 of an acknowledgement: what was recorded, for which request. */
  datatype CommitRecord = CommitRecord(
    structuralVersion: u64,
    marksDigest: bytes32,
    nonce: bytes32,
    requestId: bytes,
    signature: bytes64)

  function CommitRecordOf(f: CommitAckFields): CommitRecord {
    CommitRecord(f.structuralVersion, f.marksDigest, f.nonce, f.requestId, f.signature)
  }

  function CommitRecordEntries(c: CommitRecord): entries {
    [(Int(5), Int(c.structuralVersion)), (Int(6), Bstr(c.marksDigest)), (Int(7), Bstr(c.nonce)),
     (Int(8), Bstr(c.requestId)), (Int(13), Bstr(c.signature))]
  }

  method ReadCommitRecord(p: StrictParser, maxRequestId: u64, ghost s: bytes, ghost d4: entries, ghost want: entries,
                          ghost wanted: Option<CommitRecord>)
    returns (r: Option<CommitRecord>, ghost now: entries)
    requires p.Valid() && |d4| == 4 && Reading(s, d4, want, p.Rest())
    requires want != [] ==> |want| == 9 && wanted.Some?
    requires want != [] ==> want[4..] == CommitRecordEntries(wanted.value) && |wanted.value.requestId| <= maxRequestId
    modifies p`pos
    ensures p.Valid()
    ensures r.Some? ==>
              && |r.value.requestId| <= maxRequestId && now == d4 + CommitRecordEntries(r.value)
              && Reading(s, now, want, p.Rest())
    ensures want != [] ==> r == wanted
  {
    hide Head, Encode, EncodeEntries, ValidUtf8, Reading;
    if want != [] {
      assert forall i | 4 <= i < 9 :: want[i] == want[4..][i - 4];
    }
    now := [];
    var structural, d5 :- p.KeyedUint(5, s, d4, want, 4);
    var digest, d6 :- p.KeyedBytesExact(6, 32, s, d5, want, 5);
    var nonce, d7 :- p.KeyedBytesExact(7, 32, s, d6, want, 6);
    var requestId, d8 :- p.KeyedBytes(8, maxRequestId, s, d7, want, 7);
    var signature, d13 :- p.KeyedBytesExact(13, 64, s, d8, want, 8);
    r, now := Some(CommitRecord(structural, digest, nonce, requestId, signature)), d13;
  }

  method ReadCommitAck(bytes: bytes, maxRequestId: u64, ghost want: Option<CommitAckFields>)
      returns (r: Option<CommitAckFields>)
    requires want.Some? ==> CommitAckBytes(bytes, want.value, maxRequestId)
    ensures want.Some? ==> r == want
    ensures r.Some? ==> CommitAckBytes(bytes, r.value, maxRequestId)
  {
    hide Head, Encode, EncodeEntries, ValidUtf8, Reading, CommitAckEntries;
    ghost var w := if want.Some? then CommitAckEntries(want.value) else [];
    if want.Some? {
      CommitAckSized(want.value, maxRequestId);
      CommitAckParts(want.value);
    }
    var p := new StrictParser(bytes, MAX_STR_LEN);
    var ok := MapHeader(p, 9, bytes, w);
    if !ok {
      return None;
    }
    ghost var s := p.Rest();
    ghost var ws := if want.Some? then Scope(want.value.version, want.value.chainId,
        want.value.environmentIdentifier, want.value.epoch) else Scope(0, 0, [], 0);
    var scope, d4 :- ReadScope(p, s, w, ws);
    ghost var wc := if want.Some? then Some(CommitRecordOf(want.value)) else None;
    var c, d13 :- ReadCommitRecord(p, maxRequestId, s, d4, w, wc);
    if p.pos != |bytes| {
      if want.Some? {
        ReadingEnd(s, d13, w, p.Rest());
      }
      return None;
    }
    var f := CommitAckFields(scope.version, scope.chainId, scope.environmentIdentifier, scope.epoch,
        c.structuralVersion, c.marksDigest, c.nonce, c.requestId, c.signature);
    CommitAckParts(f);
    Complete(bytes, s, d13, w, p.Rest());
    r := Some(f);
  }

  method StrictDecodeCommitAck(bytes: bytes, maxRequestId: u64) returns (r: Option<CommitAckFields>)
    ensures forall f :: r == Some(f) <==> CommitAckBytes(bytes, f, maxRequestId)
    ensures r == DecodedCommitAck(bytes, maxRequestId)
  {
    hide CommitAckBytes;
    r := ReadCommitAck(bytes, maxRequestId, DecodedCommitAck(bytes, maxRequestId));
  }

  // ---------------------------------------------------------------- marks payload

  /** Fewest wire bytes of a row: array head 1, authority 2 + 32, and one each for the rest. */
  const MIN_ROW_BYTES: nat := 38

  lemma {:induction false} RowIs38(r: DecodedRow)
    requires |r.scopeTarget| <= U64_MAX
    ensures |Encode(RowValue(r))| >= MIN_ROW_BYTES
  {
    RowNext(r, Encode(RowValue(r)), []);
    assert |Encode(Bstr(r.authority))| == 34;
  }

  /** The allocation guard never rejects a payload that really holds that many rows. */
  lemma {:induction false} RowsFit(rows: seq<DecodedRow>)
    requires forall i | 0 <= i < |rows| :: |rows[i].scopeTarget| <= U64_MAX
    ensures |EncodeItems(RowValues(rows))| >= MIN_ROW_BYTES * |rows|
  {
    if rows != [] {
      RowIs38(rows[0]);
      RowsFit(rows[1..]);
      assert RowValues(rows)[1..] == RowValues(rows[1..]);
    }
  }

  /** A row's encoding, element by element. */
  lemma {:induction false} RowNext(r: DecodedRow, s: bytes, t: bytes)
    ensures Next(s, RowValue(r), t) <==>
            s == Head(4, 4) + (Encode(Bstr(r.authority)) + (Encode(Int(r.scopeClass))
                 + (Encode(Bstr(r.scopeTarget)) + (Encode(Int(r.highestAcceptedCounter)) + t))))
  {
    hide Head;
    var a, c, g, h := Bstr(r.authority), Int(r.scopeClass), Bstr(r.scopeTarget), Int(r.highestAcceptedCounter);
    var items := [a, c, g, h];
    FourItems(a, c, g, h);
    assert Encode(RowValue(r)) == Head(4, 4) + EncodeItems(items);
    Regroup(Head(4, 4), Encode(a), Encode(c), Encode(g), Encode(h), t);
  }

  lemma {:induction false} FourItems(a: Value, b: Value, c: Value, d: Value)
    ensures EncodeItems([a, b, c, d]) == Encode(a) + (Encode(b) + (Encode(c) + Encode(d)))
  {
    hide Encode;
    var nothing: seq<Value> := [];
    EncodeItemsSnoc(nothing, a);
    EncodeItemsSnoc(nothing + [a], b);
    EncodeItemsSnoc(nothing + [a] + [b], c);
    EncodeItemsSnoc(nothing + [a] + [b] + [c], d);
    assert nothing + [a] + [b] + [c] + [d] == [a, b, c, d];
    assert ((Encode(a) + Encode(b)) + Encode(c)) + Encode(d) == Encode(a) + (Encode(b) + (Encode(c) + Encode(d)));
  }

  lemma {:induction false} Regroup(h: bytes, a: bytes, b: bytes, c: bytes, d: bytes, t: bytes)
    ensures h + (a + (b + (c + d))) + t == h + (a + (b + (c + (d + t))))
  {
  }

  /** One row; `want`, if any, is the row that starts the input, followed by `t`. */
  method ReadRow(p: StrictParser, ghost want: Option<DecodedRow>, ghost t: bytes) returns (r: Option<DecodedRow>)
    requires p.Valid()
    requires want.Some? ==>
               |want.value.scopeTarget| <= MARKS_SCOPE_TARGET_MAX_LEN && Next(p.Rest(), RowValue(want.value), t)
    modifies p`pos
    ensures p.Valid()
    ensures r.Some? ==>
              |r.value.scopeTarget| <= MARKS_SCOPE_TARGET_MAX_LEN && Next(old(p.Rest()), RowValue(r.value), p.Rest())
    ensures want.Some? ==> r == want && p.Rest() == t
  {
    hide Head, Encode;
    ghost var s := p.Rest();
    ghost var b1: bytes, b2: bytes, b3: bytes, b4: bytes := [], [], [], [];
    if want.Some? {
      var w := want.value;
      RowNext(w, s, t);
      b4 := Encode(Int(w.highestAcceptedCounter)) + t;
      b3 := Encode(Bstr(w.scopeTarget)) + b4;
      b2 := Encode(Int(w.scopeClass)) + b3;
      b1 := Encode(Bstr(w.authority)) + b2;
      assert s == Head(4, 4) + b1;
      HeadFirst(s, 4, 4, b1);
      assert Next(b1, Bstr(w.authority), b2) && Next(b2, Int(w.scopeClass), b3);
      assert Next(b3, Bstr(w.scopeTarget), b4) && Next(b4, Int(w.highestAcceptedCounter), t);
    }
    var four := p.TypedHead(4);
    if four != Some(4) {
      return None;
    }
    ghost var r1 := p.Rest();
    if want.Some? {
      SplitAt(Head(4, 4), r1, Head(4, 4), b1);
    }
    var authority :- p.ByteStringExact(32);
    ghost var r2 := p.Rest();
    var scopeClass :- p.Uint();
    if scopeClass > U8_MAX {
      return None;
    }
    ghost var r3 := p.Rest();
    var target :- p.ByteString(MARKS_SCOPE_TARGET_MAX_LEN);
    ghost var r4 := p.Rest();
    var counter :- p.Uint();
    var row := DecodedRow(authority, scopeClass, target, counter);
    RowNext(row, s, p.Rest());
    r := Some(row);
  }

  lemma {:induction false} HeadFirst(s: bytes, major: nat, arg: u64, rest: bytes)
    requires major < 8 && s == Head(major, arg) + rest
    ensures StartsWithHead(s, major, arg)
  {
  }

  ghost predicate RowsRead(s: bytes, rows: seq<DecodedRow>, rest: bytes) {
    && s == EncodeItems(RowValues(rows)) + rest
    && RowsAscend(rows)
    && forall i | 0 <= i < |rows| :: |rows[i].scopeTarget| <= MARKS_SCOPE_TARGET_MAX_LEN
  }

  lemma {:induction false} RowRead(s: bytes, rows: seq<DecodedRow>, before: bytes, row: DecodedRow, after: bytes)
    requires RowsRead(s, rows, before) && Next(before, RowValue(row), after)
    requires |row.scopeTarget| <= MARKS_SCOPE_TARGET_MAX_LEN
    requires rows != [] ==> LaneBefore(RowLane(rows[|rows| - 1]), RowLane(row))
    ensures RowsRead(s, rows + [row], after)
  {
    hide Encode, LaneBefore;
    var all := rows + [row];
    assert RowValues(all) == RowValues(rows) + [RowValue(row)];
    EncodeItemsSnoc(RowValues(rows), RowValue(row));
    var e := EncodeItems(RowValues(rows));
    assert e + Encode(RowValue(row)) + after == e + (Encode(RowValue(row)) + after);
    forall i | 0 <= i < |all| - 1 ensures LaneBefore(RowLane(all[i]), RowLane(all[i + 1])) {
      if i < |rows| - 1 {
        assert LaneBefore(RowLane(rows[i]), RowLane(rows[i + 1]));
      }
    }
  }

  lemma {:induction false} WantedRow(rows: seq<DecodedRow>, i: nat, rest: bytes, tail: bytes)
    requires i < |rows| && ItemsAhead(RowValues(rows), i, rest, tail)
    ensures var t := EncodeItems(RowValues(rows)[i + 1..]) + tail;
            Next(rest, RowValue(rows[i]), t) && ItemsAhead(RowValues(rows), i + 1, t, tail)
  {
    var vs := RowValues(rows);
    assert vs[i..][1..] == vs[i + 1..] && vs[i..][0] == RowValue(rows[i]);
    var e, t := Encode(vs[i]), EncodeItems(vs[i + 1..]);
    assert (e + t) + tail == e + (t + tail);
  }

  /** `&key <= prev` on row keys, so `!RowFollows` rejects duplicates and disorder. */
  predicate RowFollows(prev: Option<DecodedRow>, row: DecodedRow) {
    prev.Some? ==> LaneBefore(RowLane(prev.value), RowLane(row))
  }

  method ReadRows(p: StrictParser, n: u64, ghost want: Option<seq<DecodedRow>>, ghost tail: bytes)
      returns (r: Option<seq<DecodedRow>>)
    requires p.Valid()
    requires want.Some? ==> |want.value| == n && RowsRead(p.Rest(), want.value, tail)
    modifies p`pos
    ensures p.Valid()
    ensures r.Some? ==> |r.value| == n && RowsRead(old(p.Rest()), r.value, p.Rest())
    ensures want.Some? ==> r == want && p.Rest() == tail
  {
    hide Encode, LaneBefore, RowValues, EncodeItems;
    ghost var s := p.Rest();
    NoRows(s);
    if want.Some? {
      assert RowValues(want.value)[0..] == RowValues(want.value);
    }
    var rows: seq<DecodedRow> := [];
    var prev: Option<DecodedRow> := None;
    for i := 0 to n
      invariant p.Valid() && |rows| == i
      invariant prev == if i == 0 then None else Some(rows[i - 1])
      invariant RowsRead(s, rows, p.Rest())
      invariant want.Some? ==> rows == want.value[..i] && ItemsAhead(RowValues(want.value), i, p.Rest(), tail)
    {
      ghost var before := p.Rest();
      ghost var next, t := None, [];
      if want.Some? {
        WantedRow(want.value, i, before, tail);
        next, t := Some(want.value[i]), EncodeItems(RowValues(want.value)[i + 1..]) + tail;
        if i > 0 {
          assert LaneBefore(RowLane(want.value[i - 1]), RowLane(want.value[i - 1 + 1]));
        }
      }
      var row :- ReadRow(p, next, t);
      if !RowFollows(prev, row) {
        return None;
      }
      RowRead(s, rows, before, row, p.Rest());
      prev := Some(row);
      rows := rows + [row];
    }
    if want.Some? {
      AllRowsRead(want.value, p.Rest(), tail);
      assert want.value[..n] == want.value;
    }
    r := Some(rows);
  }

  lemma {:induction false} AllRowsRead(rows: seq<DecodedRow>, rest: bytes, tail: bytes)
    requires ItemsAhead(RowValues(rows), |rows|, rest, tail)
    ensures rest == tail
  {
    assert RowValues(rows)[|rows|..] == [];
  }

  lemma {:induction false} NoRows(s: bytes)
    ensures RowsRead(s, [], s) && RowValues([]) == [] && EncodeItems([]) == []
  {
  }

  ghost predicate MarksBytes(bytes: bytes, m: DecodedMarks, maxRows: u64) {
    LegalMarks(m, maxRows) && bytes == MarksPayload(m)
  }

  ghost function DecodedMarksPayload(bytes: bytes, maxRows: u64): (r: Option<DecodedMarks>)
    ensures forall m :: r == Some(m) <==> MarksBytes(bytes, m, maxRows)
  {
    if exists m :: MarksBytes(bytes, m, maxRows) then
      var m :| MarksBytes(bytes, m, maxRows);
      assert forall w | MarksBytes(bytes, w, maxRows) :: m == w by {
        forall w | MarksBytes(bytes, w, maxRows) ensures m == w {
          LegalMarksSized(m, maxRows);
          LegalMarksSized(w, maxRows);
          MarksPayloadInjective(m, w);
        }
      }
      Some(m)
    else None
  }

  /** The first entry of a marks map: what key 1's array looks like on the wire. */
  lemma {:induction false} RowsEntry(m: DecodedMarks, maxRows: u64, s: bytes)
    requires LegalMarks(m, maxRows) && s == EncodeEntries(MarksEntries(m))
    ensures var n := |m.rows|;
            var t := EncodeEntries(MarksEntries(m)[1..]);
            var body := EncodeItems(RowValues(m.rows)) + t;
            Next(s, Int(1), Head(4, n) + body) && StartsWithHead(Head(4, n) + body, 4, n)
            && RowsRead(body, m.rows, t) && |body| >= MIN_ROW_BYTES * n
  {
    hide Head, RowValues;
    var n, t := |m.rows|, EncodeEntries(MarksEntries(m)[1..]);
    var vs := RowValues(m.rows);
    assert MarksEntries(m)[0] == (Int(1), Arr(vs));
    assert s == Encode(Int(1)) + (Encode(Arr(vs)) + t);
    assert (Head(4, n) + EncodeItems(vs)) + t == Head(4, n) + (EncodeItems(vs) + t);
    RowsFit(m.rows);
  }

  lemma {:induction false} RowsRecorded(s: bytes, mid: bytes, body: bytes, rows: seq<DecodedRow>, want: entries,
      rest: bytes)
    requires |rows| <= U64_MAX
    requires Reading(s, [], want, s) && Next(s, Int(1), mid) && mid == Head(4, |rows|) + body
    requires RowsRead(body, rows, rest)
    ensures Reading(s, [(Int(1), Arr(RowValues(rows)))], want, rest)
  {
    hide Head, RowValues, RowsAscend, Reading;
    var vs := RowValues(rows);
    assert Head(4, |rows|) + (EncodeItems(vs) + rest) == (Head(4, |rows|) + EncodeItems(vs)) + rest;
    assert Next(mid, Arr(vs), rest);
    RowsSized(rows);
    ReadingOn(s, [], want, s, Int(1), mid, Arr(vs), rest);
    assert [] + [(Int(1), Arr(vs))] == [(Int(1), Arr(vs))];
  }

  lemma {:induction false} RowsSized(rows: seq<DecodedRow>)
    requires |rows| <= U64_MAX && forall i | 0 <= i < |rows| :: |rows[i].scopeTarget| <= MARKS_SCOPE_TARGET_MAX_LEN
    ensures Sized(Arr(RowValues(rows)))
  {
    var zero := BE(32, 0);
    MarksSized(DecodedMarks(rows, zero, zero, 0));
    assert Sized(MarksEntries(DecodedMarks(rows, zero, zero, 0))[0].1);
  }

  function SpendEntries(cumulative: bytes32, lifetime: bytes32, recovery: u64): entries {
    [(Int(2), Bstr(cumulative)), (Int(3), Bstr(lifetime)), (Int(4), Int(recovery))]
  }

  /** Keys 2 to 4 of the marks map. */
  method ReadSpends(p: StrictParser, ghost s: bytes, ghost d1: entries, ghost want: entries)
    returns (r: Option<(bytes32, bytes32, u64)>, ghost now: entries)
    requires p.Valid() && |d1| == 1 && Reading(s, d1, want, p.Rest())
    modifies p`pos
    ensures p.Valid()
    ensures r.Some? ==> now == d1 + SpendEntries(r.value.0, r.value.1, r.value.2) && Reading(s, now, want, p.Rest())
    ensures |want| == 4 ==>
              forall c: bytes32, l: bytes32, n: u64 | want[1..] == SpendEntries(c, l, n) :: r == Some((c, l, n))
  {
    hide Head, Encode, EncodeEntries, Reading;
    forall c: bytes32, l: bytes32, n: u64 | |want| == 4 && want[1..] == SpendEntries(c, l, n)
      ensures want[1] == (Int(2), Bstr(c)) && want[2] == (Int(3), Bstr(l)) && want[3] == (Int(4), Int(n))
    {
      assert want[1..][0] == want[1] && want[1..][1] == want[2] && want[1..][2] == want[3];
    }
    now := [];
    var cumulative, d2 :- p.KeyedBytesExact(2, 32, s, d1, want, 1);
    var lifetime, d3 :- p.KeyedBytesExact(3, 32, s, d2, want, 2);
    var recovery, d4 :- p.KeyedUint(4, s, d3, want, 3);
    r, now := Some((cumulative, lifetime, recovery)), d4;
  }

  /** Key 1 of the marks map: the row array, behind the row cap and the allocation guard. */
  method ReadRowsEntry(p: StrictParser, maxRows: u64, ghost s: bytes, ghost want: Option<DecodedMarks>,
      ghost w: entries)
    returns (r: Option<seq<DecodedRow>>, ghost now: entries)
    requires p.Valid() && p.Rest() == s && Reading(s, [], w, s)
    requires w == if want.Some? then MarksEntries(want.value) else []
    requires want.Some? ==> LegalMarks(want.value, maxRows)
    modifies p`pos
    ensures p.Valid()
    ensures r.Some? ==> && |r.value| <= maxRows && RowsAscend(r.value)
                        && (forall i | 0 <= i < |r.value| :: |r.value[i].scopeTarget| <= MARKS_SCOPE_TARGET_MAX_LEN)
                        && now == [(Int(1), Arr(RowValues(r.value)))] && Reading(s, now, w, p.Rest())
    ensures want.Some? ==> r == Some(want.value.rows)
  {
    hide Head, Encode, EncodeEntries, EncodeItems, Reading, RowsRead, RowValues, RowsAscend, MarksEntries;
    r, now := None, [];
    ghost var wantRows: Option<seq<DecodedRow>>, tail: bytes := None, [];
    if want.Some? {
      WantedMarks(want.value, s, w);
      RowsEntry(want.value, maxRows, s);
      wantRows, tail := Some(want.value.rows), EncodeEntries(w[1..]);
    }
    var ok := p.Key(1);
    if !ok {
      return;
    }
    ghost var mid := p.Rest();
    var n :- p.TypedHead(4);
    ghost var body := p.Rest();
    if want.Some? {
      SplitAt(Head(4, n), body, Head(4, n), EncodeItems(RowValues(want.value.rows)) + tail);
    }
    var rem := p.Remaining();
    if n > maxRows || n * MIN_ROW_BYTES > rem {
      return;
    }
    var rows :- ReadRows(p, n, wantRows, tail);
    RowsRecorded(s, mid, body, rows, w, p.Rest());
    RowsReadLegal(body, rows);
    r, now := Some(rows), [(Int(1), Arr(RowValues(rows)))];
  }

  lemma {:induction false} WantedMarks(m: DecodedMarks, s: bytes, w: entries)
    requires w == MarksEntries(m) && Reading(s, [], w, s)
    ensures s == EncodeEntries(w) && |w| == 4
  {
    ReadingStart(s, w);
  }

  method ReadMarksPayload(bytes: bytes, maxRows: u64, ghost want: Option<DecodedMarks>)
      returns (r: Option<DecodedMarks>)
    requires want.Some? ==> MarksBytes(bytes, want.value, maxRows)
    ensures want.Some? ==> r == want
    ensures r.Some? ==> MarksBytes(bytes, r.value, maxRows)
  {
    hide Head, Encode, EncodeEntries, EncodeItems, Reading, RowsRead, RowValues, RowsAscend;
    ghost var w := if want.Some? then MarksEntries(want.value) else [];
    if want.Some? {
      LegalMarksSized(want.value, maxRows);
      EntriesOfSized(w);
      assert w[1..] == SpendEntries(want.value.cumulativeNativeSpend, want.value.lifetimeSpend,
          want.value.strictRecoveryCounter);
    }
    var p := new StrictParser(bytes, MAX_STR_LEN);
    var ok := MapHeader(p, 4, bytes, w);
    if !ok {
      return None;
    }
    ghost var s := p.Rest();
    var rows, d1 :- ReadRowsEntry(p, maxRows, s, want, w);
    var spends, d4 :- ReadSpends(p, s, d1, w);
    if p.pos != |bytes| {
      if want.Some? {
        ReadingEnd(s, d4, w, p.Rest());
      }
      return None;
    }
    var (cumulative, lifetime, recovery) := spends;
    var m := DecodedMarks(rows, cumulative, lifetime, recovery);
    assert d4 == MarksEntries(m);
    Complete(bytes, s, d4, w, p.Rest());
    r := Some(m);
  }

  lemma {:induction false} RowsReadLegal(body: bytes, rows: seq<DecodedRow>)
    requires exists rest :: RowsRead(body, rows, rest)
    ensures RowsAscend(rows) && forall i | 0 <= i < |rows| :: |rows[i].scopeTarget| <= MARKS_SCOPE_TARGET_MAX_LEN
  {
  }

  lemma {:induction false} ReadingStart(s: bytes, want: entries)
    requires Reading(s, [], want, s) && want != []
    ensures s == EncodeEntries(want)
  {
    assert want[0..] == want;
  }

  lemma {:induction false} EntriesOfSized(es: entries)
    requires Sized(MapV(es))
    ensures SizedEntries(es)
  {
  }

  /** The marks payload decoder is the exact inverse of the marks encoder. */
  method StrictDecodeMarksPayload(bytes: bytes, maxRows: u64) returns (r: Option<DecodedMarks>)
    ensures forall m :: r == Some(m) <==> MarksBytes(bytes, m, maxRows)
    ensures r == DecodedMarksPayload(bytes, maxRows)
  {
    hide MarksBytes;
    r := ReadMarksPayload(bytes, maxRows, DecodedMarksPayload(bytes, maxRows));
  }
}
