/**
  The two length-prefixed envelopes: the disaster-recovery backup blob and the restore-ingress
  envelope. Each strict parser is the exact inverse of its builder, and the authenticated header
  determines every field.
 */
module Envelope {
  import opened Wrappers
  import opened Bytes
  import R = Restore

  const FORMAT_VERSION: u16 := 1
  const ML_KEM_1024_CIPHERTEXT_LEN: nat := 1568
  const NONCE_LEN: nat := 12
  const SHA3_256_LEN: nat := 32

  function BackupMagic(): (m: bytes)
    ensures |m| == 8
  {
    Ascii("2DAGTBK\0")
  }

  function IngressMagic(): (m: bytes)
    ensures |m| == 8
  {
    Ascii("2DAGRIE\0")
  }

  datatype BackupError =
    | InvalidEncapsKeyLen
    | InvalidEncapsKey
    | FieldTooLong
    | Csprng
    | Encrypt
    | Decrypt
    | Truncated
    | BadMagic
    | UnsupportedVersion
    | Serialization

  // ---------------------------------------------------------------- fields

  /** A field behind a big-endian length prefix. */
  function Lp(width: nat, field: bytes): bytes {
    BE(width, |field|) + field
  }

  ghost predicate Leads(s: bytes, x: bytes, t: bytes) {
    s == x + t
  }

  lemma {:induction false} LeadsEnd(x: bytes)
    ensures Leads(x, x, [])
  {
  }

  lemma {:induction false} LeadsIs(s: bytes, x: bytes, t: bytes)
    requires Leads(s, x, t)
    ensures s == x + t
  {
  }

  lemma {:induction false} LpLeads(s: bytes, width: nat, x: bytes, t: bytes)
    requires Leads(s, Lp(width, x), t)
    ensures Leads(s, BE(width, |x|), x + t) && Leads(x + t, x, t)
  {
    hide BE;
    assert (BE(width, |x|) + x) + t == BE(width, |x|) + (x + t);
  }

  lemma {:induction false} LpRead(s: bytes, width: nat, x: bytes, mid: bytes, t: bytes)
    requires Leads(s, BE(width, |x|), mid) && Leads(mid, x, t)
    ensures Leads(s, Lp(width, x), t) && |Lp(width, x)| == width + |x|
  {
    hide BE;
    assert (BE(width, |x|) + x) + t == BE(width, |x|) + (x + t);
  }

  method PutLp16(out: bytes, field: bytes) returns (r: Result<bytes, BackupError>)
    ensures r == if |field| > U16_MAX then Err(FieldTooLong) else Ok(out + Lp(2, field))
  {
    if |field| > U16_MAX {
      return Err(FieldTooLong);
    }
    var n := out + BE(2, |field|);
    assert n + field == out + Lp(2, field);
    r := Ok(n + field);
  }

  method PutLp32(out: bytes, field: bytes) returns (r: Result<bytes, BackupError>)
    ensures r == if |field| > U32_MAX then Err(FieldTooLong) else Ok(out + Lp(4, field))
  {
    if |field| > U32_MAX {
      return Err(FieldTooLong);
    }
    var n := out + BE(4, |field|);
    assert n + field == out + Lp(4, field);
    r := Ok(n + field);
  }

  /** A cursor with bounds-checked reads; running out of bytes is always `Truncated`. */
  class Reader {
    const buf: bytes
    var pos: nat

    ghost predicate Valid()
      reads this
    {
      pos <= |buf|
    }

    ghost function Rest(): bytes
      reads this
      requires Valid()
    {
      buf[pos..]
    }

    constructor (buf: bytes)
      ensures Valid() && this.buf == buf && pos == 0 && Rest() == buf
    {
      this.buf := buf;
      this.pos := 0;
    }

    method Take(n: nat) returns (r: Result<bytes, BackupError>)
      requires Valid()
      modifies this`pos
      ensures Valid()
      ensures r.Ok? <==> n <= |old(Rest())|
      ensures r.Err? ==> r.error == Truncated
      ensures r.Ok? ==> |r.value| == n && Leads(old(Rest()), r.value, Rest()) && pos == old(pos) + n
      ensures forall x, t :: |x| == n && Leads(old(Rest()), x, t) ==> r == Ok(x) && Rest() == t
    {
      var end := pos + n;
      if end > |buf| {
        return Err(Truncated);
      }
      r := Ok(buf[pos..end]);
      ghost var s := Rest();
      pos := end;
      forall x, t | |x| == n && Leads(s, x, t) ensures x == s[..n] && t == s[n..] {
      }
    }

    /** A big-endian integer of `width` bytes. */
    method TakeInt(width: nat) returns (r: Result<nat, BackupError>)
      requires Valid()
      modifies this`pos
      ensures Valid()
      ensures r.Ok? <==> width <= |old(Rest())|
      ensures r.Err? ==> r.error == Truncated
      ensures r.Ok? ==>
                && r.value < Pow256(width) && Leads(old(Rest()), BE(width, r.value), Rest())
                && pos == old(pos) + width
      ensures forall v: nat, t :: v < Pow256(width) && Leads(old(Rest()), BE(width, v), t) ==> r == Ok(v) && Rest() == t
    {
      hide BE, FromBE, Pow256, Leads;
      forall v: nat | v < Pow256(width) ensures FromBE(BE(width, v)) == v {
        FromBEOfBE(width, v);
      }
      var b :- Take(width);
      FromBEBound(b);
      BEOfFromBE(b);
      r := Ok(FromBE(b));
    }

    /** A field behind a prefix of `width` bytes. */
    method TakeLp(width: nat) returns (r: Result<bytes, BackupError>)
      requires Valid()
      modifies this`pos
      ensures Valid()
      ensures r.Err? ==> r.error == Truncated
      ensures r.Ok? ==> |r.value| < Pow256(width) && Leads(old(Rest()), Lp(width, r.value), Rest())
      ensures r.Ok? ==> pos == old(pos) + |Lp(width, r.value)|
      ensures forall x, t :: |x| < Pow256(width) && Leads(old(Rest()), Lp(width, x), t) ==> r == Ok(x) && Rest() == t
    {
      hide BE, Pow256, Leads, Lp;
      ghost var s := Rest();
      forall x, t | |x| < Pow256(width) && Leads(s, Lp(width, x), t)
        ensures Leads(s, BE(width, |x|), x + t) && Leads(x + t, x, t)
      {
        LpLeads(s, width, x, t);
      }
      var n :- TakeInt(width);
      ghost var mid := Rest();
      var x :- Take(n);
      LpRead(s, width, x, mid, Rest());
      r := Ok(x);
    }
  }

  /** Magic and version come first in both formats, and are judged before anything else is read. */
  function HeaderVerdict(blob: bytes, magic: bytes): Result<(), BackupError>
    requires |magic| == 8
  {
    if |blob| < 10 then Err(Truncated)
    else if blob[..8] != magic then Err(BadMagic)
    else if FromBE(blob[8..10]) != FORMAT_VERSION then Err(UnsupportedVersion)
    else Ok(())
  }

  function Preamble(magic: bytes): bytes {
    magic + BE(2, FORMAT_VERSION)
  }

  lemma {:induction false} GoodHeader(blob: bytes, magic: bytes, t: bytes)
    requires |magic| == 8
    ensures Leads(blob, Preamble(magic), t) ==> HeaderVerdict(blob, magic).Ok?
    ensures HeaderVerdict(blob, magic).Ok? ==>
              Leads(blob, magic, blob[8..]) && Leads(blob[8..], BE(2, FORMAT_VERSION), blob[10..])
  {
    hide BE, FromBE;
    Pow256Values();
    if Leads(blob, Preamble(magic), t) {
      assert blob[..8] == magic && blob[8..10] == BE(2, FORMAT_VERSION);
      FromBEOfBE(2, FORMAT_VERSION);
    }
    if HeaderVerdict(blob, magic).Ok? {
      BEOfFromBE(blob[8..10]);
      assert blob == blob[..8] + blob[8..];
      assert blob[8..] == blob[8..10] + blob[10..];
    }
  }

  // ---------------------------------------------------------------- who and where

  /** Both formats start their body with a 16-bit-prefixed id, the chain id and the environment. */
  function Identity(id: bytes, chainId: u64, env: bytes, t: bytes): bytes {
    Lp(2, id) + (BE(8, chainId) + (Lp(2, env) + t))
  }

  lemma {:induction false} IdentityAppend(id: bytes, chainId: u64, env: bytes, s: bytes, t: bytes)
    ensures Identity(id, chainId, env, s) + t == Identity(id, chainId, env, s + t)
  {
    hide BE, Lp;
    var a, b, c := Lp(2, id), BE(8, chainId), Lp(2, env);
    assert (a + (b + (c + s))) + t == a + (b + (c + (s + t)));
  }

  lemma {:induction false} IdentityInjective(i1: bytes, c1: u64, e1: bytes, s: bytes, i2: bytes, c2: u64, e2: bytes,
      t: bytes)
    requires |i1| <= U16_MAX && |i2| <= U16_MAX && |e1| <= U16_MAX && |e2| <= U16_MAX
    requires Identity(i1, c1, e1, s) == Identity(i2, c2, e2, t)
    ensures i1 == i2 && c1 == c2 && e1 == e2 && s == t
  {
    hide BE, Lp, Pow256;
    Pow256Values();
    var s2, t2 := Lp(2, e1) + s, Lp(2, e2) + t;
    SplitLp(2, i1, BE(8, c1) + s2, i2, BE(8, c2) + t2);
    SplitAt(BE(8, c1), s2, BE(8, c2), t2);
    R.SameLength(8, c1, c2);
    SplitLp(2, e1, s, e2, t);
  }

  method TakeIdentity(r: Reader, ghost want: Option<(bytes, u64, bytes)>, ghost t: bytes)
    returns (res: Result<(bytes, u64, bytes), BackupError>)
    requires r.Valid()
    requires want.Some? ==> && |want.value.0| <= U16_MAX && |want.value.2| <= U16_MAX
                            && r.Rest() == Identity(want.value.0, want.value.1, want.value.2, t)
    modifies r`pos
    ensures r.Valid() && (res.Ok? ==> r.pos >= old(r.pos))
    ensures res.Err? ==> res.error == Truncated
    ensures res.Ok? ==> && |res.value.0| <= U16_MAX && |res.value.2| <= U16_MAX
                        && old(r.Rest()) == Identity(res.value.0, res.value.1, res.value.2, r.Rest())
    ensures want.Some? ==> res == Ok(want.value) && r.Rest() == t
  {
    hide BE, Lp, Pow256;
    Pow256Values();
    if want.Some? {
      var (id, chainId, env) := want.value;
      var t2 := Lp(2, env) + t;
      assert Leads(r.Rest(), Lp(2, id), BE(8, chainId) + t2) && Leads(BE(8, chainId) + t2, BE(8, chainId), t2);
      assert Leads(t2, Lp(2, env), t);
    }
    var id :- r.TakeLp(2);
    var chainId :- r.TakeInt(8);
    var env :- r.TakeLp(2);
    res := Ok((id, chainId, env));
  }

  // ---------------------------------------------------------------- the backup blob

  datatype BackupFields = BackupFields(
    recoveryKeyId: bytes,
    chainId: u64,
    environmentIdentifier: bytes,
    kemCt: bytes,
    manifest: bytes,
    nonce: bytes)

  /** The fields that have a header: prefixed ones fit their prefix, fixed ones have their width. */
  predicate BackupFits(f: BackupFields) {
    && |f.recoveryKeyId| <= U16_MAX && |f.environmentIdentifier| <= U16_MAX && |f.manifest| <= U32_MAX
    && |f.kemCt| == ML_KEM_1024_CIPHERTEXT_LEN && |f.nonce| == NONCE_LEN
  }

  /** What follows the preamble, in front of `t`. */
  function BackupTail(f: BackupFields, t: bytes): bytes {
    f.kemCt + (Lp(4, f.manifest) + (f.nonce + t))
  }

  function BackupBody(f: BackupFields, t: bytes): bytes {
    Identity(f.recoveryKeyId, f.chainId, f.environmentIdentifier, BackupTail(f, t))
  }

  /** The authenticated header. */
  function BackupHeader(f: BackupFields): bytes {
    Preamble(BackupMagic()) + BackupBody(f, [])
  }

  function BackupBlob(f: BackupFields, dem: bytes): bytes {
    BackupHeader(f) + Lp(4, dem)
  }

  lemma {:induction false} BackupBodyAppend(f: BackupFields, t: bytes)
    ensures BackupBody(f, []) + t == BackupBody(f, t)
  {
    hide BE, Lp, Identity;
    var a, b, c := f.kemCt, Lp(4, f.manifest), f.nonce;
    assert (a + (b + (c + []))) + t == a + (b + (c + t));
    IdentityAppend(f.recoveryKeyId, f.chainId, f.environmentIdentifier, BackupTail(f, []), t);
  }

  lemma {:induction false} BackupBlobShape(f: BackupFields, dem: bytes)
    ensures Leads(BackupBlob(f, dem), Preamble(BackupMagic()), BackupBody(f, Lp(4, dem)))
  {
    hide BE, Lp, BackupBody, Preamble;
    BackupBodyAppend(f, Lp(4, dem));
    var start, body, sealed := Preamble(BackupMagic()), BackupBody(f, []), Lp(4, dem);
    assert (start + body) + sealed == start + (body + sealed);
  }

  method BuildHeader(f: BackupFields) returns (r: Result<bytes, BackupError>)
    ensures r == if |f.recoveryKeyId| > U16_MAX || |f.environmentIdentifier| > U16_MAX || |f.manifest| > U32_MAX
                 then Err(FieldTooLong) else Ok(BackupHeader(f))
  {
    hide BE, Lp;
    var h := BackupMagic() + BE(2, FORMAT_VERSION);
    h :- PutLp16(h, f.recoveryKeyId);
    h := h + BE(8, f.chainId);
    h :- PutLp16(h, f.environmentIdentifier);
    h := h + f.kemCt;
    h :- PutLp32(h, f.manifest);
    h := h + f.nonce;
    var p, a, b, c, d, e, g := Preamble(BackupMagic()), Lp(2, f.recoveryKeyId), BE(8, f.chainId),
        Lp(2, f.environmentIdentifier), f.kemCt, Lp(4, f.manifest), f.nonce;
    R.Flatten(p, a, b, c, d, e, g, []);
    assert h == p + a + b + c + d + e + g + [];
    r := Ok(h);
  }

  /** The suffixes of a body after its identity: after each field comes the next. */
  ghost predicate BackupChain(f: BackupFields, s: seq<bytes>) {
    |s| == 4
    && Leads(s[0], f.kemCt, s[1])
    && Leads(s[1], Lp(4, f.manifest), s[2])
    && Leads(s[2], f.nonce, s[3])
  }

  ghost function BackupSuffixes(f: BackupFields, t: bytes): (s: seq<bytes>)
    ensures BackupChain(f, s) && s[0] == BackupTail(f, t) && s[3] == t
  {
    hide BE, Lp;
    var s3 := t;
    var s2 := f.nonce + s3;
    var s1 := Lp(4, f.manifest) + s2;
    var s0 := f.kemCt + s1;
    [s0, s1, s2, s3]
  }

  lemma {:induction false} BackupChained(f: BackupFields, s: seq<bytes>)
    requires BackupChain(f, s)
    ensures s[0] == BackupTail(f, s[3])
  {
    hide BE, Lp;
  }

  datatype ParsedBackup = ParsedBackup(fields: BackupFields, header: bytes, dem: bytes)

  /** The walk over the framed fields, once magic and version are known to be right. */
  method ParseBackupBody(r: Reader, ghost want: Option<(BackupFields, bytes)>)
      returns (res: Result<(BackupFields, nat, bytes), BackupError>)
    requires r.Valid()
    requires want.Some? ==> && BackupFits(want.value.0) && |want.value.1| <= U32_MAX
                            && r.Rest() == BackupBody(want.value.0, Lp(4, want.value.1))
    modifies r`pos
    ensures r.Valid()
    ensures res.Err? ==> res.error == Truncated
    ensures res.Ok? ==> var (f, headerEnd, dem) := res.value;
                        && BackupFits(f) && |dem| <= U32_MAX
                        && old(r.Rest()) == BackupBody(f, Lp(4, dem) + r.Rest())
                        && old(r.pos) <= headerEnd <= |r.buf| && r.buf[headerEnd..] == Lp(4, dem) + r.Rest()
    ensures want.Some? ==> res.Ok? && res.value.0 == want.value.0 && res.value.2 == want.value.1 && r.Rest() == []
  {
    hide BE, Lp, Pow256, Leads, BackupTail, Identity;
    Pow256Values();
    ghost var w: seq<bytes>, who: Option<(bytes, u64, bytes)>, t: bytes := [], None, [];
    if want.Some? {
      ghost var f := want.value.0;
      t := BackupTail(f, Lp(4, want.value.1));
      w := BackupSuffixes(f, Lp(4, want.value.1));
      who := Some((f.recoveryKeyId, f.chainId, f.environmentIdentifier));
      LeadsEnd(Lp(4, want.value.1));
    }
    var identity :- TakeIdentity(r, who, t);
    var (id, chainId, env) := identity;
    ghost var s0 := r.Rest();
    var kemCt :- r.Take(ML_KEM_1024_CIPHERTEXT_LEN);
    ghost var s1 := r.Rest();
    var manifest :- r.TakeLp(4);
    ghost var s2 := r.Rest();
    var nonce :- r.Take(NONCE_LEN);
    ghost var s3 := r.Rest();
    var headerEnd := r.pos;
    var dem :- r.TakeLp(4);
    var f := BackupFields(id, chainId, env, kemCt, manifest, nonce);
    BackupChained(f, [s0, s1, s2, s3]);
    LeadsIs(s3, Lp(4, dem), r.Rest());
    res := Ok((f, headerEnd, dem));
  }

  /**
    `strict_parse` is the inverse of the builder: it returns these fields and this ciphertext exactly
    when the blob is their header followed by the prefixed ciphertext, and the header slice it hands
    to the AEAD is exactly that header.
   */
  method StrictParse(blob: bytes) returns (res: Result<ParsedBackup, BackupError>)
    ensures forall f, dem :: res == Ok(ParsedBackup(f, BackupHeader(f), dem)) <==>
                             BackupFits(f) && |dem| <= U32_MAX && blob == BackupBlob(f, dem)
    ensures res.Ok? ==> res.value.header == BackupHeader(res.value.fields)
    ensures HeaderVerdict(blob, BackupMagic()).Err? ==> res == Err(HeaderVerdict(blob, BackupMagic()).error)
    ensures HeaderVerdict(blob, BackupMagic()).Ok? && res.Err? ==> res.error == Truncated
  {
    hide BE, Lp, BackupBody, FromBE, Pow256, BackupHeader, BackupFits;
    ghost var want := WantedBackup(blob);
    if want.Some? {
      BackupBlobShape(want.value.0, want.value.1);
      GoodHeader(blob, BackupMagic(), BackupBody(want.value.0, Lp(4, want.value.1)));
    }
    if |blob| < |BackupMagic()| + 2 {
      return Err(Truncated);
    }
    if blob[..|BackupMagic()|] != BackupMagic() {
      return Err(BadMagic);
    }
    if FromBE(blob[8..10]) != FORMAT_VERSION {
      return Err(UnsupportedVersion);
    }
    GoodHeader(blob, BackupMagic(), []);
    var r := new Reader(blob);
    var magic := r.Take(|BackupMagic()|);
    var version := r.TakeInt(2);
    assert magic.Ok? && version.Ok? && r.Rest() == blob[10..];
    if want.Some? {
      AfterPreamble(blob, BackupMagic(), BackupBody(want.value.0, Lp(4, want.value.1)));
    }
    var walked :- ParseBackupBody(r, want);
    var (f, headerEnd, dem) := walked;
    if r.pos != |blob| {
      return Err(Truncated);
    }
    assert r.Rest() == [];
    BackupRebuilt(blob, f, headerEnd, dem);
    res := Ok(ParsedBackup(f, blob[..headerEnd], dem));
  }

  lemma {:induction false} AfterPreamble(blob: bytes, magic: bytes, t: bytes)
    requires |magic| == 8 && Leads(blob, Preamble(magic), t)
    ensures |blob| >= 10 && blob[10..] == t
  {
  }

  ghost function WantedBackup(blob: bytes): (r: Option<(BackupFields, bytes)>)
    ensures forall f, dem :: r == Some((f, dem)) <==> BackupFits(f) && |dem| <= U32_MAX && blob == BackupBlob(f, dem)
  {
    if exists f, dem :: BackupFits(f) && |dem| <= U32_MAX && blob == BackupBlob(f, dem) then
      var f, dem :| BackupFits(f) && |dem| <= U32_MAX && blob == BackupBlob(f, dem);
      assert forall g, e | BackupFits(g) && |e| <= U32_MAX && blob == BackupBlob(g, e) :: f == g && dem == e by {
        forall g, e | BackupFits(g) && |e| <= U32_MAX && blob == BackupBlob(g, e) ensures f == g && dem == e {
          BackupBlobInjective(f, dem, g, e);
        }
      }
      Some((f, dem))
    else None
  }

  lemma {:induction false} BackupRebuilt(blob: bytes, f: BackupFields, headerEnd: nat, dem: bytes)
    requires |blob| >= 10 && HeaderVerdict(blob, BackupMagic()).Ok?
    requires blob[10..] == BackupBody(f, Lp(4, dem) + []) && 10 <= headerEnd <= |blob|
        && blob[headerEnd..] == Lp(4, dem) + []
    ensures blob == BackupBlob(f, dem) && blob[..headerEnd] == BackupHeader(f)
  {
    hide BE, Lp, BackupBody, FromBE;
    GoodHeader(blob, BackupMagic(), []);
    var p, t := Preamble(BackupMagic()), Lp(4, dem);
    assert t + [] == t;
    BackupBodyAppend(f, t);
    assert blob == p + (BackupBody(f, []) + t);
    assert p + (BackupBody(f, []) + t) == (p + BackupBody(f, [])) + t;
    assert blob == blob[..headerEnd] + blob[headerEnd..];
    assert |blob[..headerEnd]| == |p + BackupBody(f, [])|;
    SplitAt(blob[..headerEnd], t, p + BackupBody(f, []), t);
  }

  /** No two field tuples share what follows the preamble. */
  lemma {:induction false} BackupBodyInjective(f: BackupFields, s: bytes, g: BackupFields, t: bytes)
    requires BackupFits(f) && BackupFits(g) && BackupBody(f, s) == BackupBody(g, t)
    ensures f == g && s == t
  {
    hide BE, Lp, Pow256, Identity;
    Pow256Values();
    IdentityInjective(f.recoveryKeyId, f.chainId, f.environmentIdentifier, BackupTail(f, s), g.recoveryKeyId,
        g.chainId, g.environmentIdentifier, BackupTail(g, t));
    var s2, t2 := f.nonce + s, g.nonce + t;
    var s1, t1 := Lp(4, f.manifest) + s2, Lp(4, g.manifest) + t2;
    SplitAt(f.kemCt, s1, g.kemCt, t1);
    SplitLp(4, f.manifest, s2, g.manifest, t2);
    SplitAt(f.nonce, s, g.nonce, t);
  }

  lemma {:induction false} SplitLp(width: nat, x: bytes, s: bytes, y: bytes, t: bytes)
    requires |x| < Pow256(width) && |y| < Pow256(width) && Lp(width, x) + s == Lp(width, y) + t
    ensures x == y && s == t
  {
    hide BE, Pow256;
    assert Lp(width, x) + s == BE(width, |x|) + (x + s) && Lp(width, y) + t == BE(width, |y|) + (y + t);
    R.PrefixedField(width, x, s, y, t);
  }

  /** The authenticated header bytes determine every field, so lengths cannot be re-partitioned. */
  lemma {:induction false} BackupHeaderInjective(f: BackupFields, g: BackupFields)
    requires BackupFits(f) && BackupFits(g) && BackupHeader(f) == BackupHeader(g)
    ensures f == g
  {
    hide BackupBody, BackupFits, BE;
    SplitAt(Preamble(BackupMagic()), BackupBody(f, []), Preamble(BackupMagic()), BackupBody(g, []));
    BackupBodyInjective(f, [], g, []);
  }

  lemma {:induction false} BackupBlobInjective(f: BackupFields, d: bytes, g: BackupFields, e: bytes)
    requires BackupFits(f) && BackupFits(g) && |d| <= U32_MAX && |e| <= U32_MAX && BackupBlob(f, d) == BackupBlob(g, e)
    ensures f == g && d == e
  {
    hide BackupBody, BackupFits, BE, Lp, BackupBlob, Pow256;
    Pow256Values();
    BackupBlobShape(f, d);
    BackupBlobShape(g, e);
    SplitAt(Preamble(BackupMagic()), BackupBody(f, Lp(4, d)), Preamble(BackupMagic()), BackupBody(g, Lp(4, e)));
    BackupBodyInjective(f, Lp(4, d), g, Lp(4, e));
    assert Lp(4, d) + [] == Lp(4, e) + [];
    SplitLp(4, d, [], e, []);
  }

  // ---------------------------------------------------------------- the restore-ingress envelope

  datatype IngressFields = IngressFields(
    destMeasurement: bytes,
    chainId: u64,
    environmentIdentifier: bytes,
    manifestHash: bytes,
    originalBackupDigest: bytes,
    kemCt: bytes,
    nonce: bytes)

  predicate IngressFits(f: IngressFields) {
    && |f.destMeasurement| <= U16_MAX && |f.environmentIdentifier| <= U16_MAX
    && |f.manifestHash| == SHA3_256_LEN && |f.originalBackupDigest| == SHA3_256_LEN
    && |f.kemCt| == ML_KEM_1024_CIPHERTEXT_LEN && |f.nonce| == NONCE_LEN
  }

  function IngressTail(f: IngressFields, t: bytes): bytes {
    f.manifestHash + (f.originalBackupDigest + (f.kemCt + (f.nonce + t)))
  }

  function IngressBody(f: IngressFields, t: bytes): bytes {
    Identity(f.destMeasurement, f.chainId, f.environmentIdentifier, IngressTail(f, t))
  }

  function IngressHeader(f: IngressFields): bytes {
    Preamble(IngressMagic()) + IngressBody(f, [])
  }

  function IngressBlob(f: IngressFields, dem: bytes): bytes {
    IngressHeader(f) + Lp(4, dem)
  }

  lemma {:induction false} IngressBodyAppend(f: IngressFields, t: bytes)
    ensures IngressBody(f, []) + t == IngressBody(f, t)
  {
    hide BE, Lp, Identity;
    var a, b, c, d := f.manifestHash, f.originalBackupDigest, f.kemCt, f.nonce;
    assert (a + (b + (c + (d + [])))) + t == a + (b + (c + (d + t)));
    IdentityAppend(f.destMeasurement, f.chainId, f.environmentIdentifier, IngressTail(f, []), t);
  }

  lemma {:induction false} IngressBlobShape(f: IngressFields, dem: bytes)
    ensures Leads(IngressBlob(f, dem), Preamble(IngressMagic()), IngressBody(f, Lp(4, dem)))
  {
    hide BE, Lp, IngressBody, Preamble;
    IngressBodyAppend(f, Lp(4, dem));
    var start, body, sealed := Preamble(IngressMagic()), IngressBody(f, []), Lp(4, dem);
    assert (start + body) + sealed == start + (body + sealed);
  }

  method BuildIngressHeader(f: IngressFields) returns (r: Result<bytes, BackupError>)
    ensures r == if |f.destMeasurement| > U16_MAX || |f.environmentIdentifier| > U16_MAX then Err(FieldTooLong)
        else Ok(IngressHeader(f))
  {
    hide BE, Lp;
    var h := IngressMagic() + BE(2, FORMAT_VERSION);
    h :- PutLp16(h, f.destMeasurement);
    h := h + BE(8, f.chainId);
    h :- PutLp16(h, f.environmentIdentifier);
    h := h + f.manifestHash;
    h := h + f.originalBackupDigest;
    h := h + f.kemCt;
    h := h + f.nonce;
    var p, a, b, c, d, e, g, k := Preamble(IngressMagic()), Lp(2, f.destMeasurement), BE(8, f.chainId),
        Lp(2, f.environmentIdentifier),
                                  f.manifestHash, f.originalBackupDigest, f.kemCt, f.nonce;
    R.Flatten(p, a, b, c, d, e, g, k);
    assert h == p + a + b + c + d + e + g + k;
    assert k + [] == k;
    r := Ok(h);
  }

  /** The suffixes of a body after its identity: after each field comes the next. */
  ghost predicate IngressChain(f: IngressFields, s: seq<bytes>) {
    |s| == 5
    && Leads(s[0], f.manifestHash, s[1])
    && Leads(s[1], f.originalBackupDigest, s[2])
    && Leads(s[2], f.kemCt, s[3])
    && Leads(s[3], f.nonce, s[4])
  }

  ghost function IngressSuffixes(f: IngressFields, t: bytes): (s: seq<bytes>)
    ensures IngressChain(f, s) && s[0] == IngressTail(f, t) && s[4] == t
  {
    hide BE, Lp;
    var s4 := t;
    var s3 := f.nonce + s4;
    var s2 := f.kemCt + s3;
    var s1 := f.originalBackupDigest + s2;
    var s0 := f.manifestHash + s1;
    [s0, s1, s2, s3, s4]
  }

  lemma {:induction false} IngressChained(f: IngressFields, s: seq<bytes>)
    requires IngressChain(f, s)
    ensures s[0] == IngressTail(f, s[4])
  {
    hide BE, Lp;
  }

  datatype ParsedIngress = ParsedIngress(fields: IngressFields, header: bytes, dem: bytes)

  method ParseIngressBody(r: Reader, ghost want: Option<(IngressFields, bytes)>)
      returns (res: Result<(IngressFields, nat, bytes), BackupError>)
    requires r.Valid()
    requires want.Some? ==> && IngressFits(want.value.0) && |want.value.1| <= U32_MAX
                            && r.Rest() == IngressBody(want.value.0, Lp(4, want.value.1))
    modifies r`pos
    ensures r.Valid()
    ensures res.Err? ==> res.error == Truncated
    ensures res.Ok? ==> var (f, headerEnd, dem) := res.value;
                        && IngressFits(f) && |dem| <= U32_MAX
                        && old(r.Rest()) == IngressBody(f, Lp(4, dem) + r.Rest())
                        && old(r.pos) <= headerEnd <= |r.buf| && r.buf[headerEnd..] == Lp(4, dem) + r.Rest()
    ensures want.Some? ==> res.Ok? && res.value.0 == want.value.0 && res.value.2 == want.value.1 && r.Rest() == []
  {
    hide BE, Lp, Pow256, Leads, IngressTail, Identity;
    Pow256Values();
    ghost var w: seq<bytes>, who: Option<(bytes, u64, bytes)>, t: bytes := [], None, [];
    if want.Some? {
      ghost var f := want.value.0;
      t := IngressTail(f, Lp(4, want.value.1));
      w := IngressSuffixes(f, Lp(4, want.value.1));
      who := Some((f.destMeasurement, f.chainId, f.environmentIdentifier));
      LeadsEnd(Lp(4, want.value.1));
    }
    var identity :- TakeIdentity(r, who, t);
    var (id, chainId, env) := identity;
    ghost var s0 := r.Rest();
    var manifestHash :- r.Take(SHA3_256_LEN);
    ghost var s1 := r.Rest();
    var digest :- r.Take(SHA3_256_LEN);
    ghost var s2 := r.Rest();
    var kemCt :- r.Take(ML_KEM_1024_CIPHERTEXT_LEN);
    ghost var s3 := r.Rest();
    var nonce :- r.Take(NONCE_LEN);
    ghost var s4 := r.Rest();
    var headerEnd := r.pos;
    var dem :- r.TakeLp(4);
    var f := IngressFields(id, chainId, env, manifestHash, digest, kemCt, nonce);
    IngressChained(f, [s0, s1, s2, s3, s4]);
    LeadsIs(s4, Lp(4, dem), r.Rest());
    res := Ok((f, headerEnd, dem));
  }

  /** The ingress parser is the inverse of the ingress builder, in the same sense. */
  method StrictParseIngressEnvelope(blob: bytes) returns (res: Result<ParsedIngress, BackupError>)
    ensures forall f, dem :: res == Ok(ParsedIngress(f, IngressHeader(f), dem)) <==>
                             IngressFits(f) && |dem| <= U32_MAX && blob == IngressBlob(f, dem)
    ensures res.Ok? ==> res.value.header == IngressHeader(res.value.fields)
    ensures HeaderVerdict(blob, IngressMagic()).Err? ==> res == Err(HeaderVerdict(blob, IngressMagic()).error)
    ensures HeaderVerdict(blob, IngressMagic()).Ok? && res.Err? ==> res.error == Truncated
  {
    hide BE, Lp, IngressBody, FromBE, Pow256, IngressHeader, IngressFits;
    ghost var want := WantedIngress(blob);
    if want.Some? {
      IngressBlobShape(want.value.0, want.value.1);
      GoodHeader(blob, IngressMagic(), IngressBody(want.value.0, Lp(4, want.value.1)));
    }
    if |blob| < |IngressMagic()| + 2 {
      return Err(Truncated);
    }
    if blob[..|IngressMagic()|] != IngressMagic() {
      return Err(BadMagic);
    }
    if FromBE(blob[8..10]) != FORMAT_VERSION {
      return Err(UnsupportedVersion);
    }
    GoodHeader(blob, IngressMagic(), []);
    var r := new Reader(blob);
    var magic := r.Take(|IngressMagic()|);
    var version := r.TakeInt(2);
    assert magic.Ok? && version.Ok? && r.Rest() == blob[10..];
    if want.Some? {
      AfterPreamble(blob, IngressMagic(), IngressBody(want.value.0, Lp(4, want.value.1)));
    }
    var walked :- ParseIngressBody(r, want);
    var (f, headerEnd, dem) := walked;
    if r.pos != |blob| {
      return Err(Truncated);
    }
    assert r.Rest() == [];
    IngressRebuilt(blob, f, headerEnd, dem);
    res := Ok(ParsedIngress(f, blob[..headerEnd], dem));
  }

  ghost function WantedIngress(blob: bytes): (r: Option<(IngressFields, bytes)>)
    ensures forall f, dem :: r == Some((f, dem)) <==> IngressFits(f) && |dem| <= U32_MAX && blob == IngressBlob(f, dem)
  {
    if exists f, dem :: IngressFits(f) && |dem| <= U32_MAX && blob == IngressBlob(f, dem) then
      var f, dem :| IngressFits(f) && |dem| <= U32_MAX && blob == IngressBlob(f, dem);
      assert forall g, e | IngressFits(g) && |e| <= U32_MAX && blob == IngressBlob(g, e) :: f == g && dem == e by {
        forall g, e | IngressFits(g) && |e| <= U32_MAX && blob == IngressBlob(g, e) ensures f == g && dem == e {
          IngressBlobInjective(f, dem, g, e);
        }
      }
      Some((f, dem))
    else None
  }

  lemma {:induction false} IngressRebuilt(blob: bytes, f: IngressFields, headerEnd: nat, dem: bytes)
    requires |blob| >= 10 && HeaderVerdict(blob, IngressMagic()).Ok?
    requires blob[10..] == IngressBody(f, Lp(4, dem) + []) && 10 <= headerEnd <= |blob|
        && blob[headerEnd..] == Lp(4, dem) + []
    ensures blob == IngressBlob(f, dem) && blob[..headerEnd] == IngressHeader(f)
  {
    hide BE, Lp, IngressBody, FromBE;
    GoodHeader(blob, IngressMagic(), []);
    var p, t := Preamble(IngressMagic()), Lp(4, dem);
    assert t + [] == t;
    IngressBodyAppend(f, t);
    assert blob == p + (IngressBody(f, []) + t);
    assert p + (IngressBody(f, []) + t) == (p + IngressBody(f, [])) + t;
    assert blob == blob[..headerEnd] + blob[headerEnd..];
    assert |blob[..headerEnd]| == |p + IngressBody(f, [])|;
    SplitAt(blob[..headerEnd], t, p + IngressBody(f, []), t);
  }

  lemma {:induction false} IngressBodyInjective(f: IngressFields, s: bytes, g: IngressFields, t: bytes)
    requires IngressFits(f) && IngressFits(g) && IngressBody(f, s) == IngressBody(g, t)
    ensures f == g && s == t
  {
    hide BE, Lp, Pow256, Identity;
    Pow256Values();
    IdentityInjective(f.destMeasurement, f.chainId, f.environmentIdentifier, IngressTail(f, s), g.destMeasurement,
        g.chainId, g.environmentIdentifier, IngressTail(g, t));
    var s3, t3 := f.nonce + s, g.nonce + t;
    var s2, t2 := f.kemCt + s3, g.kemCt + t3;
    var s1, t1 := f.originalBackupDigest + s2, g.originalBackupDigest + t2;
    SplitAt(f.manifestHash, s1, g.manifestHash, t1);
    SplitAt(f.originalBackupDigest, s2, g.originalBackupDigest, t2);
    SplitAt(f.kemCt, s3, g.kemCt, t3);
    SplitAt(f.nonce, s, g.nonce, t);
  }

  lemma {:induction false} IngressHeaderInjective(f: IngressFields, g: IngressFields)
    requires IngressFits(f) && IngressFits(g) && IngressHeader(f) == IngressHeader(g)
    ensures f == g
  {
    hide IngressBody, IngressFits, BE;
    SplitAt(Preamble(IngressMagic()), IngressBody(f, []), Preamble(IngressMagic()), IngressBody(g, []));
    IngressBodyInjective(f, [], g, []);
  }

  lemma {:induction false} IngressBlobInjective(f: IngressFields, d: bytes, g: IngressFields, e: bytes)
    requires IngressFits(f) && IngressFits(g) && |d| <= U32_MAX && |e| <= U32_MAX
        && IngressBlob(f, d) == IngressBlob(g, e)
    ensures f == g && d == e
  {
    hide IngressBody, IngressFits, BE, Lp, IngressBlob, Pow256;
    Pow256Values();
    IngressBlobShape(f, d);
    IngressBlobShape(g, e);
    SplitAt(Preamble(IngressMagic()), IngressBody(f, Lp(4, d)), Preamble(IngressMagic()), IngressBody(g, Lp(4, e)));
    IngressBodyInjective(f, Lp(4, d), g, Lp(4, e));
    assert Lp(4, d) + [] == Lp(4, e) + [];
    SplitLp(4, d, [], e, []);
  }

  /** Neither format can be parsed as the other. */
  lemma {:induction false} FormatsDisjoint(f: BackupFields, d: bytes, g: IngressFields, e: bytes)
    ensures BackupBlob(f, d) != IngressBlob(g, e)
    ensures HeaderVerdict(BackupBlob(f, d), IngressMagic()) == Err(BadMagic)
    ensures HeaderVerdict(IngressBlob(g, e), BackupMagic()) == Err(BadMagic)
  {
    hide BackupBody, IngressBody, BE, Lp, FromBE;
    var x, y := BackupBlob(f, d), IngressBlob(g, e);
    assert x[..8] == BackupMagic() && y[..8] == IngressMagic();
    assert BackupMagic()[4] == 'T' as int && IngressMagic()[4] == 'R' as int;
  }
}
