/**
  The append-style emitters of canonical CBOR. A `&mut Vec<u8>` argument is a value that the method
  returns extended.
 */
module Emit {
  import opened Bytes
  import opened Cbor
  import opened MapAccess

  /** Append a head in shortest form, branch by branch. */
  method PutUint(out: bytes, major: nat, val: u64) returns (r: bytes)
    requires major < 8
    ensures r == out + Head(major, val)
  {
    var mt := major * 32;
    if val < 24 {
      r := out + [mt + val];
    } else if val <= U8_MAX {
      r := out + [mt + 24];
      r := r + [val];
    } else if val <= U16_MAX {
      r := out + [mt + 25];
      r := r + BE(2, val);
    } else if val <= U32_MAX {
      r := out + [mt + 26];
      r := r + BE(4, val);
    } else {
      r := out + [mt + 27];
      r := r + BE(8, val);
    }
  }

  /** An unsigned integer item: `put_uint(out, 0, val)`. */
  method PutNat(out: bytes, val: u64) returns (r: bytes)
    ensures r == out + Encode(Int(val))
  {
    r := PutUint(out, 0, val);
  }

  method PutText(out: bytes, t: bytes) returns (r: bytes)
    requires |t| <= U64_MAX
    ensures r == out + Encode(Text(t))
  {
    r := PutUint(out, 3, |t|);
    r := r + t;
  }

  method PutBytes(out: bytes, b: bytes) returns (r: bytes)
    requires |b| <= U64_MAX
    ensures r == out + Encode(Bstr(b))
  {
    r := PutUint(out, 2, |b|);
    r := r + b;
  }

  /** Bookkeeping of a map being emitted: appending a key and a value emits one more entry. */
  ghost function Entry(base: bytes, done: entries, k: Value, v: Value): (r: entries)
    ensures r == done + [(k, v)]
    ensures base + EncodeEntries(done) + Encode(k) + Encode(v) == base + EncodeEntries(r)
  {
    EncodeEntriesSnoc(done, k, v);
    assert base + EncodeEntries(done) + Encode(k) + Encode(v) == base + (EncodeEntries(done) + Encode(k) + Encode(v));
    done + [(k, v)]
  }

  /** The same for the elements of an array. */
  ghost function Element(base: bytes, done: seq<Value>, v: Value): (r: seq<Value>)
    ensures r == done + [v]
    ensures base + EncodeItems(done) + Encode(v) == base + EncodeItems(r)
  {
    EncodeItemsSnoc(done, v);
    assert base + EncodeItems(done) + Encode(v) == base + (EncodeItems(done) + Encode(v));
    done + [v]
  }

  /*
    One entry of a map: the key, then the value. `base` is everything up to and including the map
    header and `done` the entries emitted so far.
   */

  method PutUintEntry(out: bytes, ghost base: bytes, ghost done: entries, key: u64, val: u64)
    returns (r: bytes, ghost now: entries)
    requires out == base + EncodeEntries(done)
    ensures now == done + [(Int(key), Int(val))] && r == base + EncodeEntries(now)
  {
    hide Head, Encode, EncodeEntries;
    r := PutNat(out, key);
    r := PutNat(r, val);
    now := Entry(base, done, Int(key), Int(val));
  }

  method PutTextEntry(out: bytes, ghost base: bytes, ghost done: entries, key: u64, t: bytes)
    returns (r: bytes, ghost now: entries)
    requires out == base + EncodeEntries(done) && |t| <= U64_MAX
    ensures now == done + [(Int(key), Text(t))] && r == base + EncodeEntries(now)
  {
    hide Head, Encode, EncodeEntries;
    r := PutNat(out, key);
    r := PutText(r, t);
    now := Entry(base, done, Int(key), Text(t));
  }

  method PutBytesEntry(out: bytes, ghost base: bytes, ghost done: entries, key: u64, b: bytes)
    returns (r: bytes, ghost now: entries)
    requires out == base + EncodeEntries(done) && |b| <= U64_MAX
    ensures now == done + [(Int(key), Bstr(b))] && r == base + EncodeEntries(now)
  {
    hide Head, Encode, EncodeEntries;
    r := PutNat(out, key);
    r := PutBytes(r, b);
    now := Entry(base, done, Int(key), Bstr(b));
  }

  method PutBoolEntry(out: bytes, ghost base: bytes, ghost done: entries, key: u64, b: bool)
    returns (r: bytes, ghost now: entries)
    requires out == base + EncodeEntries(done)
    ensures now == done + [(Int(key), Boolean(b))] && r == base + EncodeEntries(now)
  {
    hide Head, EncodeEntries;
    r := PutNat(out, key);
    r := r + [if b then 0xf5 else 0xf4];
    assert Encode(Boolean(b)) == [if b then 0xf5 else 0xf4];
    now := Entry(base, done, Int(key), Boolean(b));
  }

  /** A map header with nothing emitted after it yet. */
  method PutMapHeader(out: bytes, n: u64) returns (r: bytes)
    ensures r == out + Head(5, n) && r == r + EncodeEntries([])
  {
    hide Head;
    r := PutUint(out, 5, n);
    EmitNothing(r);
  }

  lemma {:induction false} EmitNothing(base: bytes)
    ensures base == base + EncodeEntries([]) == base + EncodeItems([])
  {
  }

  /** A map header followed by its entries is the encoded map ... */
  lemma {:induction false} EncodeMap(out: bytes, es: entries)
    ensures out + Head(5, |es|) + EncodeEntries(es) == out + Encode(MapV(es))
  {
    hide Head, EncodeEntries;
    assert out + Head(5, |es|) + EncodeEntries(es) == out + (Head(5, |es|) + EncodeEntries(es));
  }

  /** ... and an array header followed by its elements the encoded array. */
  lemma {:induction false} EncodeArr(out: bytes, vs: seq<Value>)
    ensures out + Head(4, |vs|) + EncodeItems(vs) == out + Encode(Arr(vs))
  {
    hide Head, EncodeItems;
    assert out + Head(4, |vs|) + EncodeItems(vs) == out + (Head(4, |vs|) + EncodeItems(vs));
  }
}
