/**
  The hand-written strict reader of untrusted wire maps: a cursor over a byte buffer whose methods
  either consume exactly one canonical encoding or fail.

  Every contract is written against the encoder: a read succeeds with `v` exactly when `v` is the
  one legal value whose encoding starts the unread bytes. After a failure the parser is abandoned,
  so a failing read promises nothing about the cursor beyond its bounds.
 */
module StrictParsing {
  import opened Wrappers
  import opened Bytes
  import opened Cbor

  ghost predicate StartsWithHead(s: bytes, major: nat, arg: u64) {
    major < 8 && Head(major, arg) <= s
  }

  /** The head that starts `s`, if there is one. */
  ghost function HeadAt(s: bytes): (r: Option<(nat, u64)>)
    ensures r.Some? ==> StartsWithHead(s, r.value.0, r.value.1)
    ensures r.None? ==> forall m, a: u64 :: !StartsWithHead(s, m, a)
  {
    if exists m, a: u64 :: StartsWithHead(s, m, a) then
      var m, a: u64 :| StartsWithHead(s, m, a);
      Some((m, a))
    else None
  }

  lemma {:induction false} HeadAtIs(s: bytes, major: nat, arg: u64)
    requires StartsWithHead(s, major, arg)
    ensures HeadAt(s) == Some((major, arg))
  {
    var (m, a) := HeadAt(s).value;
    assert s == Head(major, arg) + s[|Head(major, arg)|..] == Head(m, a) + s[|Head(m, a)|..];
    HeadPrefixFree(major, arg, s[|Head(major, arg)|..], m, a, s[|Head(m, a)|..]);
  }

  /** What the bytes after a head's first byte must look like. */
  lemma {:induction false} HeadFits(s: bytes, major: nat, arg: u64)
    requires StartsWithHead(s, major, arg)
    ensures s != [] && s[0] / 32 == major && s[0] % 32 < 28
    ensures var w := ArgWidth(s[0] % 32);
            |s| >= 1 + w && ShortestArg(s[0] % 32, arg) && (w > 0 ==> arg == FromBE(s[1..1 + w]))
  {
    HeadShape(major, arg);
    var h := Head(major, arg);
    assert h == s[..|h|];
    if arg >= 24 {
      assert h[1..] == s[1..1 + ArgWidth(s[0] % 32)];
    }
  }

  /** Bytes that denote (major, arg) in shortest form are consumed as that head. */
  lemma {:induction false} HeadConsumed(s: bytes, w: nat, arg: nat)
    requires s != [] && s[0] % 32 < 28 && w == ArgWidth(s[0] % 32) && |s| >= 1 + w
    requires arg == if w == 0 then s[0] % 32 else FromBE(s[1..1 + w])
    requires ShortestArg(s[0] % 32, arg)
    ensures arg <= U64_MAX && s == Head(s[0] / 32, arg) + s[1 + w..]
  {
    var h := s[..1 + w];
    assert h[1..] == s[1..1 + w];
    assert h[0] == s[0];
    ShortestIsHead(h, s[0] / 32, arg);
    assert s == h + s[1 + w..];
  }

  /** Levels an item at `depth` may still open. */
  ghost function Budget(depth: nat): nat {
    if depth > MAX_CBOR_DEPTH then 0 else 1 + MAX_CBOR_DEPTH - depth
  }

  /** `v` is legal, has this head, and the rest of its encoding starts `body`. */
  ghost predicate BodyStarts(body: bytes, v: Value, major: nat, arg: u64, depth: nat, cap: u64) {
    Legal(v, depth, cap) && Split(v).0 == major && Split(v).1 == arg && Split(v).2 <= body
  }

  lemma {:induction false} StartsHead(s: bytes, v: Value, depth: nat, cap: u64)
    requires Starts(s, v, depth, cap)
    ensures Split(v).1 <= U64_MAX && HeadAt(s) == Some((Split(v).0, Split(v).1))
  {
    LegalIsSized(v, depth, cap);
    SplitEncodes(v);
    var (m, a, b) := Split(v);
    assert Head(m, a) <= s by { assert Head(m, a) == (Head(m, a) + b)[..|Head(m, a)|]; }
    assert StartsWithHead(s, m, a);
    HeadAtIs(s, m, a);
  }

  lemma {:induction false} StartsBody(s: bytes, v: Value, depth: nat, cap: u64, body: bytes)
    requires Starts(s, v, depth, cap) && s == Head(Split(v).0, Split(v).1) + body && Split(v).1 <= U64_MAX
    ensures BodyStarts(body, v, Split(v).0, Split(v).1, depth, cap)
  {
    SplitEncodes(v);
    var (m, a, b) := Split(v);
    var t := s[|Encode(v)|..];
    assert s == Head(m, a) + (b + t);
    HeadPrefixFree(m, a, body, m, a, b + t);
    assert b <= body;
  }

  lemma {:induction false} TooDeep(s: bytes, depth: nat, cap: u64)
    requires depth > MAX_CBOR_DEPTH
    ensures Decoded(s, depth, cap) == None
  {
    assert forall v :: !Starts(s, v, depth, cap);
  }

  lemma {:induction false} ItemRead(s: bytes, v: Value, body: bytes, rest: bytes, depth: nat, cap: u64)
    requires Legal(v, depth, cap)
    requires s == Head(Split(v).0, Split(v).1) + body && body == Split(v).2 + rest
    ensures s == Encode(v) + rest && Decoded(s, depth, cap) == Some(v)
  {
    hide Head, Legal, Split;
    SplitEncodes(v);
    var (m, a, b) := Split(v);
    assert Head(m, a) + (b + rest) == Head(m, a) + b + rest;
    assert Starts(s, v, depth, cap);
    DecodedIs(s, v, depth, cap);
  }

  // ---------------------------------------------------------------- containers

  ghost predicate ItemsStart(s: bytes, xs: seq<Value>, n: nat, depth: nat, cap: u64) {
    && |xs| == n <= MAX_ARRAY_ENTRIES
    && (forall i | 0 <= i < n :: Legal(xs[i], depth, cap))
    && EncodeItems(xs) <= s
  }

  ghost predicate EntriesStart(s: bytes, es: seq<(Value, Value)>, n: nat, depth: nat, cap: u64) {
    && |es| == n <= MAX_MAP_ENTRIES
    && KeysAscend(es)
    && (forall i | 0 <= i < n :: Legal(es[i].0, depth, cap) && Legal(es[i].1, depth, cap))
    && EncodeEntries(es) <= s
  }

  /** What a body must look like, major type by major type. */
  ghost predicate BodyShape(body: bytes, v: Value, major: nat, arg: u64, depth: nat, cap: u64) {
    match major
    case 0 => true
    case 1 => true
    case 2 => arg <= cap && arg <= |body|
    case 3 => arg <= cap && arg <= |body| && ValidUtf8(body[..arg])
    case 4 => v.Arr? && ItemsStart(body, v.items, arg, depth + 1, cap)
    case 5 => v.MapV? && EntriesStart(body, v.entries, arg, depth + 1, cap)
    case 7 => arg == 20 || arg == 21
    case _ => false
  }

  lemma {:induction false} BodyHasShape(body: bytes, v: Value, major: nat, arg: u64, depth: nat, cap: u64)
    requires BodyStarts(body, v, major, arg, depth, cap)
    ensures BodyShape(body, v, major, arg, depth, cap)
  {
    if major == 3 {
      assert v.t == body[..arg];
    }
  }

  /**
    Walking a container: `xs` is the container the bytes encode (if any does), `rest` is unread once
    its first `i` elements are consumed, and `tail` follows the container.
   */
  ghost predicate ItemsAhead(xs: seq<Value>, i: nat, rest: bytes, tail: bytes) {
    i <= |xs| && rest == EncodeItems(xs[i..]) + tail
  }

  lemma {:induction false} ItemsBegin(s: bytes, xs: seq<Value>)
    requires EncodeItems(xs) <= s
    ensures ItemsAhead(xs, 0, s, s[|EncodeItems(xs)|..])
  {
    assert xs[0..] == xs;
  }

  lemma {:induction false} ItemNext(xs: seq<Value>, i: nat, rest: bytes, tail: bytes, after: bytes)
    requires i < |xs| && ItemsAhead(xs, i, rest, tail)
    ensures Encode(xs[i]) <= rest
    ensures rest == Encode(xs[i]) + after ==> ItemsAhead(xs, i + 1, after, tail)
  {
    assert xs[i..][1..] == xs[i + 1..];
    assert xs[i..][0] == xs[i];
    var e, next := Encode(xs[i]), EncodeItems(xs[i + 1..]) + tail;
    assert rest == e + next;
    assert next == rest[|e|..];
    if rest == e + after {
      assert after == rest[|e|..];
    }
  }

  /** What a container loop has gathered: legal elements whose encodings are the consumed bytes. */
  ghost predicate ItemsGathered(s: bytes, out: seq<Value>, rest: bytes, depth: nat, cap: u64) {
    && s == EncodeItems(out) + rest
    && forall j | 0 <= j < |out| :: Legal(out[j], depth, cap)
  }

  lemma {:induction false} ItemGather(s: bytes, out: seq<Value>, rest: bytes, v: Value, after: bytes, depth: nat,
      cap: u64)
    requires ItemsGathered(s, out, rest, depth, cap)
    requires Legal(v, depth, cap) && rest == Encode(v) + after
    ensures ItemsGathered(s, out + [v], after, depth, cap)
  {
    EncodeItemsSnoc(out, v);
    hide Encode, EncodeItems, Legal;
    var d, x := EncodeItems(out), Encode(v);
    assert d + x + after == d + (x + after);
  }

  ghost predicate EntriesAhead(es: seq<(Value, Value)>, i: nat, rest: bytes, tail: bytes) {
    i <= |es| && rest == EncodeEntries(es[i..]) + tail
  }

  lemma {:induction false} EntriesBegin(s: bytes, es: seq<(Value, Value)>)
    requires EncodeEntries(es) <= s
    ensures EntriesAhead(es, 0, s, s[|EncodeEntries(es)|..])
  {
    assert es[0..] == es;
  }

  lemma {:induction false} EntryNext(es: seq<(Value, Value)>, i: nat, rest: bytes, tail: bytes, after: bytes)
    requires i < |es| && EntriesAhead(es, i, rest, tail)
    ensures Encode(es[i].0) + Encode(es[i].1) <= rest
    ensures rest == Encode(es[i].0) + (Encode(es[i].1) + after) ==> EntriesAhead(es, i + 1, after, tail)
  {
    assert es[i..][1..] == es[i + 1..];
    assert es[i..][0] == es[i];
    var k, v, next := Encode(es[i].0), Encode(es[i].1), EncodeEntries(es[i + 1..]) + tail;
    assert rest == (k + v) + next;
    assert next == rest[|k + v|..];
    if rest == k + (v + after) {
      assert rest == (k + v) + after;
      assert after == rest[|k + v|..];
    }
  }

  /** A legal key and value encoded one after the other at the front of `s`. */
  ghost predicate PairStarts(s: bytes, k: Value, v: Value, depth: nat, cap: u64) {
    Legal(k, depth, cap) && Legal(v, depth, cap) && Encode(k) + Encode(v) <= s
  }

  lemma {:induction false} PairStartsBoth(s: bytes, k: Value, v: Value, depth: nat, cap: u64, mid: bytes)
    requires PairStarts(s, k, v, depth, cap)
    ensures Starts(s, k, depth, cap)
    ensures s == Encode(k) + mid ==> Starts(mid, v, depth, cap)
  {
    var e, f := Encode(k), Encode(v);
    var t := s[|e + f|..];
    assert s == e + (f + t);
    if s == e + mid {
      assert mid == s[|e|..] == f + t;
    }
  }

  lemma {:induction false} WantedPair(s: bytes, es: seq<(Value, Value)>, n: nat, i: nat, rest: bytes, tail: bytes,
      depth: nat, cap: u64)
    requires EntriesStart(s, es, n, depth, cap) && i < n && EntriesAhead(es, i, rest, tail)
    ensures PairStarts(rest, es[i].0, es[i].1, depth, cap)
    ensures i > 0 ==> Less(Encode(es[i - 1].0), Encode(es[i].0))
  {
    EntryNext(es, i, rest, tail, []);
    if i > 0 {
      assert KeysAscend(es) && 0 <= i - 1 < |es| - 1;
    }
  }

  ghost predicate EntriesGathered(s: bytes, out: seq<(Value, Value)>, rest: bytes, depth: nat, cap: u64) {
    && s == EncodeEntries(out) + rest
    && KeysAscend(out)
    && forall j | 0 <= j < |out| :: Legal(out[j].0, depth, cap) && Legal(out[j].1, depth, cap)
  }

  lemma {:induction false} EntryGather(s: bytes, out: seq<(Value, Value)>, rest: bytes, k: Value, v: Value,
      after: bytes, depth: nat, cap: u64)
    requires EntriesGathered(s, out, rest, depth, cap)
    requires Legal(k, depth, cap) && Legal(v, depth, cap)
    requires out != [] ==> Less(Encode(out[|out| - 1].0), Encode(k))
    requires rest == Encode(k) + (Encode(v) + after)
    ensures EntriesGathered(s, out + [(k, v)], after, depth, cap)
  {
    EncodeEntriesSnoc(out, k, v);
    hide Encode, EncodeEntries, Legal, Less;
    var d, x, y := EncodeEntries(out), Encode(k), Encode(v);
    assert d + x + y + after == d + (x + (y + after));
  }

  lemma {:induction false} NothingGathered(s: bytes, depth: nat, cap: u64)
    ensures ItemsGathered(s, [], s, depth, cap) && EntriesGathered(s, [], s, depth, cap)
  {
  }

  ghost function ItemsWanted(s: bytes, n: nat, depth: nat, cap: u64): (r: Option<seq<Value>>)
    ensures r.Some? ==> ItemsStart(s, r.value, n, depth, cap)
    ensures r.None? ==> forall xs :: !ItemsStart(s, xs, n, depth, cap)
  {
    if exists xs :: ItemsStart(s, xs, n, depth, cap) then
      var xs :| ItemsStart(s, xs, n, depth, cap);
      Some(xs)
    else None
  }

  ghost function EntriesWanted(s: bytes, n: nat, depth: nat, cap: u64): (r: Option<seq<(Value, Value)>>)
    ensures r.Some? ==> EntriesStart(s, r.value, n, depth, cap)
    ensures r.None? ==> forall es :: !EntriesStart(s, es, n, depth, cap)
  {
    if exists es :: EntriesStart(s, es, n, depth, cap) then
      var es :| EntriesStart(s, es, n, depth, cap);
      Some(es)
    else None
  }

  class StrictParser {
    const buf: bytes
    const maxBstr: u64
    var pos: nat

    ghost predicate Valid()
      reads this
    {
      pos <= |buf|
    }

    /** The unread bytes. */
    ghost function Rest(): (s: bytes)
      reads this
      requires Valid()
    {
      buf[pos..]
    }

    constructor (bytes: bytes, maxBstr: u64)
      ensures Valid() && buf == bytes && this.maxBstr == maxBstr
      ensures pos == 0 && Rest() == bytes
    {
      this.buf := bytes;
      this.maxBstr := maxBstr;
      this.pos := 0;
    }

    method U8() returns (r: Option<byte>)
      requires Valid()
      modifies this`pos
      ensures Valid()
      ensures r.Some? <==> old(Rest()) != []
      ensures r.Some? ==> r.value == old(Rest())[0] && Rest() == old(Rest())[1..]
      ensures r.None? ==> pos == old(pos)
    {
      if pos >= |buf| {
        return None;
      }
      r := Some(buf[pos]);
      pos := pos + 1;
    }

    method Take(n: nat) returns (r: Option<bytes>)
      requires Valid()
      modifies this`pos
      ensures Valid()
      ensures r.Some? <==> n <= |old(Rest())|
      ensures r.Some? ==> r.value == old(Rest())[..n] && Rest() == old(Rest())[n..]
      ensures r.None? ==> pos == old(pos)
    {
      if n > |buf| - pos {
        return None;
      }
      r := Some(buf[pos..pos + n]);
      pos := pos + n;
    }

    /** Read one head in shortest form; indefinite lengths and reserved minors fail. */
    method ReadHead() returns (r: Option<(nat, u64)>)
      requires Valid()
      modifies this`pos
      ensures Valid()
      ensures r == HeadAt(old(Rest()))
      ensures r.Some? ==> old(Rest()) == Head(r.value.0, r.value.1) + Rest()
    {
      hide Head, BE, FromBE, Pow256;
      ghost var s := Rest();
      ghost var want := HeadAt(s);
      if want.Some? {
        HeadFits(s, want.value.0, want.value.1);
      }
      var ib :- U8();
      var major, minor := ib / 32, ib % 32;
      var arg: nat;
      Pow256Values();
      if minor <= 23 {
        arg := minor;
      } else if minor == 24 {
        var v :- U8();
        assert s[1] == v;
        FromBE1(s[1..2]);
        if v < 24 {
          return None;
        }
        arg := v;
      } else if minor == 25 {
        var b :- Take(2);
        assert b == s[1..3];
        FromBEBound(b);
        arg := FromBE(b);
        if arg <= U8_MAX {
          return None;
        }
      } else if minor == 26 {
        var b :- Take(4);
        assert b == s[1..5];
        FromBEBound(b);
        arg := FromBE(b);
        if arg <= U16_MAX {
          return None;
        }
      } else if minor == 27 {
        var b :- Take(8);
        assert b == s[1..9];
        FromBEBound(b);
        arg := FromBE(b);
        if arg <= U32_MAX {
          return None;
        }
      } else {
        return None;
      }
      HeadConsumed(s, ArgWidth(minor), arg);
      assert Rest() == s[1 + ArgWidth(minor)..];
      HeadAtIs(s, major, arg);
      r := Some((major, arg));
    }

    method Remaining() returns (n: nat)
      requires Valid()
      ensures n == |Rest()|
    {
      n := |buf| - pos;
    }

    /**
      Read one item at nesting depth `depth`. It succeeds exactly when the unread bytes start with
      the encoding of a legal value, returns that value and consumes exactly that encoding.
     */
    method Item(depth: nat) returns (r: Option<Value>)
      requires Valid()
      modifies this`pos
      ensures Valid()
      ensures r == Decoded(old(Rest()), depth, maxBstr)
      ensures r.Some? ==> old(Rest()) == Encode(r.value) + Rest()
      decreases Budget(depth), 2
    {
      if depth > MAX_CBOR_DEPTH {
        TooDeep(Rest(), depth, maxBstr);
        return None;
      }
      hide Head, Encode, Decoded, Legal, Split;
      ghost var s := Rest();
      ghost var want := Decoded(s, depth, maxBstr);
      if want.Some? {
        StartsHead(s, want.value, depth, maxBstr);
      }
      var head :- ReadHead();
      var (major, arg) := head;
      if want.Some? {
        StartsBody(s, want.value, depth, maxBstr, Rest());
      }
      ghost var body := Rest();
      var v :- ItemBody(major, arg, depth);
      ItemRead(s, v, body, Rest(), depth, maxBstr);
      r := Some(v);
    }

    /** The match on the major type: everything of an item but its head. */
    method ItemBody(major: nat, arg: u64, depth: nat) returns (r: Option<Value>)
      requires Valid() && depth <= MAX_CBOR_DEPTH
      modifies this`pos
      ensures Valid()
      ensures r.Some? ==> BodyStarts(old(Rest()), r.value, major, arg, depth, maxBstr)
      ensures r.Some? ==> old(Rest()) == Split(r.value).2 + Rest()
      ensures r.None? ==> forall v :: !BodyStarts(old(Rest()), v, major, arg, depth, maxBstr)
      decreases Budget(depth), 1
    {
      hide Head, Encode;
      ghost var body := Rest();
      forall v | BodyStarts(body, v, major, arg, depth, maxBstr)
        ensures BodyShape(body, v, major, arg, depth, maxBstr)
      {
        BodyHasShape(body, v, major, arg, depth, maxBstr);
      }
      if major == 0 {
        r := Some(Int(arg));
      } else if major == 1 {
        r := Some(Int(-1 - arg));
      } else if major == 2 {
        if arg > maxBstr {
          return None;
        }
        var b :- Take(arg);
        r := Some(Bstr(b));
      } else if major == 3 {
        if arg > maxBstr {
          return None;
        }
        var b :- Take(arg);
        if !ValidUtf8(b) {
          return None;
        }
        r := Some(Text(b));
      } else if major == 4 {
        var items := Items(arg, depth + 1);
        if items.None? {
          return None;
        }
        r := Some(Arr(items.value));
      } else if major == 5 {
        var entries := Entries(arg, depth + 1);
        if entries.None? {
          return None;
        }
        r := Some(MapV(entries.value));
      } else if major == 7 {
        if arg == 20 {
          r := Some(Boolean(false));
        } else if arg == 21 {
          r := Some(Boolean(true));
        } else {
          return None;
        }
      } else {
        return None;
      }
    }

    /** The elements of a definite-length array. */
    method Items(n: u64, depth: nat) returns (r: Option<seq<Value>>)
      requires Valid() && 0 < depth <= MAX_CBOR_DEPTH + 1
      modifies this`pos
      ensures Valid()
      ensures r.Some? ==> ItemsStart(old(Rest()), r.value, n, depth, maxBstr)
      ensures r.Some? ==> old(Rest()) == EncodeItems(r.value) + Rest()
      ensures r.None? ==> forall xs :: !ItemsStart(old(Rest()), xs, n, depth, maxBstr)
      decreases Budget(depth), 5
    {
      ghost var s := Rest();
      var rem := Remaining();
      if n > MAX_ARRAY_ENTRIES || n > rem {
        return None;
      }
      ghost var want := ItemsWanted(s, n, depth, maxBstr);
      ghost var tail: bytes := if want.Some? then s[|EncodeItems(want.value)|..] else [];
      if want.Some? {
        ItemsBegin(s, want.value);
      }
      var out: seq<Value> := [];
      for i := 0 to n
        invariant Valid() && |out| == i
        invariant ItemsGathered(s, out, Rest(), depth, maxBstr)
        invariant want.Some? ==> ItemsAhead(want.value, i, Rest(), tail)
      {
        ghost var before := Rest();
        if want.Some? {
          ItemNext(want.value, i, before, tail, []);
          assert Starts(before, want.value[i], depth, maxBstr);
          DecodedIs(before, want.value[i], depth, maxBstr);
        }
        var v :- Item(depth);
        if want.Some? {
          ItemNext(want.value, i, before, tail, Rest());
        }
        ItemGather(s, out, before, v, Rest(), depth, maxBstr);
        out := out + [v];
      }
      assert EncodeItems(out) <= s;
      r := Some(out);
    }

    /** The pairs of a definite-length map, keys strictly ascending by their encoded bytes. */
    method Entries(n: u64, depth: nat) returns (r: Option<seq<(Value, Value)>>)
      requires Valid() && 0 < depth <= MAX_CBOR_DEPTH + 1
      modifies this`pos
      ensures Valid()
      ensures r.Some? ==> EntriesStart(old(Rest()), r.value, n, depth, maxBstr)
      ensures r.Some? ==> old(Rest()) == EncodeEntries(r.value) + Rest()
      ensures r.None? ==> forall es :: !EntriesStart(old(Rest()), es, n, depth, maxBstr)
      decreases Budget(depth), 5
    {
      hide Head, Encode, EncodeEntries, Legal, KeysAscend, Less, EntriesAhead, Decoded;
      ghost var s := Rest();
      var rem := Remaining();
      if n > MAX_MAP_ENTRIES || 2 * n > rem {
        return None;
      }
      ghost var want := EntriesWanted(s, n, depth, maxBstr);
      ghost var tail: bytes := if want.Some? then s[|EncodeEntries(want.value)|..] else [];
      if want.Some? {
        EntriesBegin(s, want.value);
      }
      var out: seq<(Value, Value)> := [];
      NothingGathered(s, depth, maxBstr);
      var lastKey: Option<(nat, nat)> := None;
      for i := 0 to n
        invariant Valid() && |out| == i
        invariant EntriesGathered(s, out, Rest(), depth, maxBstr)
        invariant lastKey.Some? <==> i > 0
        invariant i > 0 ==> Between(lastKey.value, Encode(out[i - 1].0))
        invariant want.Some? ==> out == want.value[..i]
        invariant want.Some? ==> EntriesAhead(want.value, i, Rest(), tail)
      {
        ghost var before := Rest();
        if want.Some? {
          WantedPair(s, want.value, n, i, before, tail, depth, maxBstr);
        }
        var pair :- Pair(lastKey, depth);
        var (k, v, range) := pair;
        if want.Some? {
          EntryNext(want.value, i, before, tail, Rest());
        }
        EntryGather(s, out, before, k, v, Rest(), depth, maxBstr);
        lastKey := Some(range);
        out := out + [(k, v)];
      }
      assert EncodeEntries(out) <= s;
      r := Some(out);
    }

    /** The bytes of the buffer in a key's range are `e`. */
    ghost predicate Between(range: (nat, nat), e: bytes) {
      range.0 <= range.1 <= |buf| && buf[range.0..range.1] == e
    }

    /** May `k` follow the key in `last`? */
    ghost predicate MayFollow(last: Option<(nat, nat)>, k: Value)
      requires last.Some? ==> last.value.0 <= last.value.1 <= |buf|
    {
      last.Some? ==> Less(buf[last.value.0..last.value.1], Encode(k))
    }

    /** One key-value pair of a map, the key strictly after the previous one. */
    method Pair(last: Option<(nat, nat)>, depth: nat) returns (r: Option<(Value, Value, (nat, nat))>)
      requires Valid() && 0 < depth <= MAX_CBOR_DEPTH + 1
      requires last.Some? ==> last.value.0 <= last.value.1 <= |buf|
      modifies this`pos
      ensures Valid()
      ensures r.Some? ==> Legal(r.value.0, depth, maxBstr) && Legal(r.value.1, depth, maxBstr)
      ensures r.Some? ==> MayFollow(last, r.value.0) && Between(r.value.2, Encode(r.value.0))
      ensures r.Some? ==> old(Rest()) == Encode(r.value.0) + (Encode(r.value.1) + Rest())
      ensures r.Some? ==>
                forall k, v :: PairStarts(old(Rest()), k, v, depth, maxBstr) ==> r.value.0 == k && r.value.1 == v
      ensures r.None? ==> forall k, v :: PairStarts(old(Rest()), k, v, depth, maxBstr) ==> !MayFollow(last, k)
      decreases Budget(depth), 4
    {
      hide Head, Encode, Legal, Less, Decoded;
      ghost var s := Rest();
      forall k, v | PairStarts(s, k, v, depth, maxBstr) ensures Starts(s, k, depth, maxBstr) {
        PairStartsBoth(s, k, v, depth, maxBstr, []);
      }
      var key :- OrderedKey(last, depth);
      var (k, range) := key;
      ghost var mid := Rest();
      forall k', v' | PairStarts(s, k', v', depth, maxBstr)
        ensures k' == k && Decoded(mid, depth, maxBstr) == Some(v')
      {
        assert Starts(s, k', depth, maxBstr);
        PairStartsBoth(s, k', v', depth, maxBstr, mid);
        DecodedIs(mid, v', depth, maxBstr);
      }
      var v :- Item(depth);
      r := Some((k, v, range));
    }

    /** Read a map key and compare its encoded bytes with the previous key's. */
    method OrderedKey(last: Option<(nat, nat)>, depth: nat) returns (r: Option<(Value, (nat, nat))>)
      requires Valid() && 0 < depth <= MAX_CBOR_DEPTH + 1
      requires last.Some? ==> last.value.0 <= last.value.1 <= |buf|
      modifies this`pos
      ensures Valid()
      ensures r.Some? ==> Starts(old(Rest()), r.value.0, depth, maxBstr) && MayFollow(last, r.value.0)
      ensures r.Some? ==> Between(r.value.1, Encode(r.value.0))
      ensures r.Some? ==> old(Rest()) == Encode(r.value.0) + Rest()
      ensures r.None? ==> forall k :: Starts(old(Rest()), k, depth, maxBstr) ==> !MayFollow(last, k)
      ensures r.Some? ==> forall k :: Starts(old(Rest()), k, depth, maxBstr) ==> k == r.value.0
      decreases Budget(depth), 3
    {
      ghost var s := Rest();
      var keyStart := pos;
      var k :- Item(depth);
      var keyEnd := pos;
      assert keyEnd - keyStart == |Encode(k)|;
      assert buf[keyStart..keyEnd] == s[..keyEnd - keyStart] == Encode(k);
      forall w | Starts(s, w, depth, maxBstr) ensures w == k {
        StartsUnique(s, w, depth, k, depth, maxBstr);
      }
      if last.Some? {
        if LessEq(buf[keyStart..keyEnd], buf[last.value.0..last.value.1]) {
          NotBelow(buf[last.value.0..last.value.1], Encode(k));
          return None;
        }
        LessTotal(buf[keyStart..keyEnd], buf[last.value.0..last.value.1]);
      }
      r := Some((k, (keyStart, keyEnd)));
    }

    // -------------------------------------------------------------- typed reads

    /** Read a head and insist on its major type. */
    method TypedHead(expected: nat) returns (r: Option<u64>)
      requires Valid()
      modifies this`pos
      ensures Valid()
      ensures r.Some? ==> expected < 8 && old(Rest()) == Head(expected, r.value) + Rest()
      ensures forall a: u64 :: StartsWithHead(old(Rest()), expected, a) ==> r == Some(a)
    {
      ghost var s := Rest();
      forall a: u64 | StartsWithHead(s, expected, a) ensures HeadAt(s) == Some((expected, a)) {
        HeadAtIs(s, expected, a);
      }
      var head :- ReadHead();
      if head.0 != expected {
        return None;
      }
      r := Some(head.1);
    }

    method Uint() returns (r: Option<u64>)
      requires Valid()
      modifies this`pos
      ensures Valid()
      ensures r.Some? ==> Next(old(Rest()), Int(r.value), Rest())
      ensures forall n: u64, t :: Next(old(Rest()), Int(n), t) ==> r == Some(n) && Rest() == t
    {
      hide Head;
      ghost var s := Rest();
      forall n: u64, t | Next(s, Int(n), t) ensures StartsWithHead(s, 0, n) && s[|Head(0, n)|..] == t {
        NextSplit(s, Int(n), t);
      }
      r := TypedHead(0);
    }

    method ByteString(max: u64) returns (r: Option<bytes>)
      requires Valid()
      modifies this`pos
      ensures Valid()
      ensures r.Some? ==> |r.value| <= max && Next(old(Rest()), Bstr(r.value), Rest())
      ensures forall b, t :: |b| <= max && Next(old(Rest()), Bstr(b), t) ==> r == Some(b) && Rest() == t
    {
      hide Head;
      ghost var s := Rest();
      forall b, t | |b| <= U64_MAX && Next(s, Bstr(b), t)
        ensures StartsWithHead(s, 2, |b|) && s[|Head(2, |b|)|..] == b + t
      {
        NextSplit(s, Bstr(b), t);
      }
      var len :- TypedHead(2);
      if len > max {
        return None;
      }
      ghost var body := Rest();
      forall b: bytes, t | |b| == len && b + t == body ensures b == body[..len] && t == body[len..] {
      }
      var taken :- Take(len);
      StringRead(s, 2, taken, body, Rest());
      r := Some(taken);
    }

    method ByteStringExact(n: u64) returns (r: Option<bytes>)
      requires Valid()
      modifies this`pos
      ensures Valid()
      ensures r.Some? ==> |r.value| == n && Next(old(Rest()), Bstr(r.value), Rest())
      ensures forall b, t :: |b| == n && Next(old(Rest()), Bstr(b), t) ==> r == Some(b) && Rest() == t
    {
      hide Head;
      ghost var s := Rest();
      forall b, t | |b| == n && Next(s, Bstr(b), t)
        ensures StartsWithHead(s, 2, |b|) && s[|Head(2, |b|)|..] == b + t
      {
        NextSplit(s, Bstr(b), t);
      }
      var len :- TypedHead(2);
      if len != n {
        return None;
      }
      ghost var body := Rest();
      forall b: bytes, t | |b| == n && b + t == body ensures b == body[..n] && t == body[n..] {
      }
      var taken :- Take(n);
      StringRead(s, 2, taken, body, Rest());
      r := Some(taken);
    }

    method TextString(max: u64) returns (r: Option<bytes>)
      requires Valid()
      modifies this`pos
      ensures Valid()
      ensures r.Some? ==> |r.value| <= max && ValidUtf8(r.value) && Next(old(Rest()), Text(r.value), Rest())
      ensures forall b, t :: |b| <= max && ValidUtf8(b) && Next(old(Rest()), Text(b), t) ==> r == Some(b) && Rest() == t
    {
      hide Head, Encode, ValidUtf8;
      ghost var s := Rest();
      forall b, t | |b| <= U64_MAX && Next(s, Text(b), t)
        ensures StartsWithHead(s, 3, |b|) && s[|Head(3, |b|)|..] == b + t
      {
        NextSplit(s, Text(b), t);
      }
      var len :- TypedHead(3);
      if len > max {
        return None;
      }
      ghost var body := Rest();
      forall b: bytes, t | |b| == len && b + t == body ensures b == body[..len] && t == body[len..] {
      }
      var taken :- Take(len);
      if !ValidUtf8(taken) {
        return None;
      }
      StringRead(s, 3, taken, body, Rest());
      r := Some(taken);
    }

    // -------------------------------------------------------------- positional map entries

    /*
      The three positional decoders read a map entry by entry in one fixed key order. `s` is what
      follows the map's head, `done` the entries read so far and `want` the entries that `s` encodes
      if it encodes an acceptable map.
     */

    method Key(expected: u64) returns (ok: bool)
      requires Valid()
      modifies this`pos
      ensures Valid()
      ensures ok ==> Next(old(Rest()), Int(expected), Rest())
      ensures forall t :: Next(old(Rest()), Int(expected), t) ==> ok && Rest() == t
    {
      var k := Uint();
      ok := k == Some(expected);
    }

    method KeyedUint(key: u64, ghost s: bytes, ghost done: seq<(Value, Value)>, ghost want: seq<(Value, Value)>,
        ghost i: nat)
      returns (r: Option<u64>, ghost now: seq<(Value, Value)>)
      requires Valid() && i == |done| && Reading(s, done, want, Rest())
      modifies this`pos
      ensures Valid()
      ensures r.Some? ==> now == done + [(Int(key), Int(r.value))] && Reading(s, now, want, Rest())
      ensures i < |want| && want[i].0 == Int(key) && want[i].1.Int? && want[i].1.n >= 0 ==> r == Some(want[i].1.n)
    {
      hide Head, Encode, EncodeEntries, ValidUtf8, Ahead;
      ghost var before := Rest();
      now := done;
      if i < |want| {
        WantNext(s, done, want, before);
      }
      var ok := Key(key);
      if !ok {
        return None, done;
      }
      ghost var mid := Rest();
      r := Uint();
      if r.Some? {
        now := done + [(Int(key), Int(r.value))];
        ReadingOn(s, done, want, before, Int(key), mid, Int(r.value), Rest());
      }
    }

    method KeyedBytes(key: u64, max: u64, ghost s: bytes, ghost done: seq<(Value, Value)>,
        ghost want: seq<(Value, Value)>, ghost i: nat)
      returns (r: Option<bytes>, ghost now: seq<(Value, Value)>)
      requires Valid() && i == |done| && Reading(s, done, want, Rest())
      modifies this`pos
      ensures Valid()
      ensures r.Some? ==> |r.value| <= max && now == done + [(Int(key), Bstr(r.value))] && Reading(s, now, want, Rest())
      ensures i < |want| && want[i].0 == Int(key) && want[i].1.Bstr? && |want[i].1.b| <= max ==> r == Some(want[i].1.b)
    {
      hide Head, Encode, EncodeEntries, ValidUtf8, Ahead;
      ghost var before := Rest();
      now := done;
      if i < |want| {
        WantNext(s, done, want, before);
      }
      var ok := Key(key);
      if !ok {
        return None, done;
      }
      ghost var mid := Rest();
      r := ByteString(max);
      if r.Some? {
        now := done + [(Int(key), Bstr(r.value))];
        ReadingOn(s, done, want, before, Int(key), mid, Bstr(r.value), Rest());
      }
    }

    method KeyedBytesExact(key: u64, n: u64, ghost s: bytes, ghost done: seq<(Value, Value)>,
        ghost want: seq<(Value, Value)>, ghost i: nat)
      returns (r: Option<bytes>, ghost now: seq<(Value, Value)>)
      requires Valid() && i == |done| && Reading(s, done, want, Rest())
      modifies this`pos
      ensures Valid()
      ensures r.Some? ==> |r.value| == n && now == done + [(Int(key), Bstr(r.value))] && Reading(s, now, want, Rest())
      ensures i < |want| && want[i].0 == Int(key) && want[i].1.Bstr? && |want[i].1.b| == n ==> r == Some(want[i].1.b)
    {
      hide Head, Encode, EncodeEntries, ValidUtf8, Ahead;
      ghost var before := Rest();
      now := done;
      if i < |want| {
        WantNext(s, done, want, before);
      }
      var ok := Key(key);
      if !ok {
        return None, done;
      }
      ghost var mid := Rest();
      r := ByteStringExact(n);
      if r.Some? {
        now := done + [(Int(key), Bstr(r.value))];
        ReadingOn(s, done, want, before, Int(key), mid, Bstr(r.value), Rest());
      }
    }

    method KeyedText(key: u64, max: u64, ghost s: bytes, ghost done: seq<(Value, Value)>,
        ghost want: seq<(Value, Value)>, ghost i: nat)
      returns (r: Option<bytes>, ghost now: seq<(Value, Value)>)
      requires Valid() && i == |done| && Reading(s, done, want, Rest())
      modifies this`pos
      ensures Valid()
      ensures r.Some? ==>
                && |r.value| <= max && ValidUtf8(r.value) && now == done + [(Int(key), Text(r.value))]
                && Reading(s, now, want, Rest())
      ensures (&& i < |want| && want[i].0 == Int(key) && want[i].1.Text?
               && |want[i].1.t| <= max && ValidUtf8(want[i].1.t)) ==>
                r == Some(want[i].1.t)
    {
      hide Head, Encode, EncodeEntries, ValidUtf8, Ahead;
      ghost var before := Rest();
      now := done;
      if i < |want| {
        WantNext(s, done, want, before);
      }
      var ok := Key(key);
      if !ok {
        return None, done;
      }
      ghost var mid := Rest();
      r := TextString(max);
      if r.Some? {
        now := done + [(Int(key), Text(r.value))];
        ReadingOn(s, done, want, before, Int(key), mid, Text(r.value), Rest());
      }
    }
  }

  /** `s` is the encoding of `v` followed by `t`. */
  ghost predicate Next(s: bytes, v: Value, t: bytes) {
    s == Encode(v) + t
  }

  lemma {:induction false} StringRead(s: bytes, major: nat, b: bytes, body: bytes, rest: bytes)
    requires major == 2 || major == 3
    requires |b| <= U64_MAX && s == Head(major, |b|) + body && body == b + rest
    ensures Next(s, if major == 2 then Bstr(b) else Text(b), rest)
  {
    hide Head;
    assert Head(major, |b|) + (b + rest) == Head(major, |b|) + b + rest;
  }

  lemma {:induction false} NextSplit(s: bytes, v: Value, t: bytes)
    requires Next(s, v, t) && Sized(v)
    ensures var (m, a, b) := Split(v);
            a <= U64_MAX && StartsWithHead(s, m, a) && s[|Head(m, a)|..] == b + t
  {
    SplitEncodes(v);
    SizedSplit(v);
    var (m, a, b) := Split(v);
    assert s == Head(m, a) + (b + t);
  }

  /** `rest` is the encoding of the entries of `es` from the `i`-th on. */
  ghost predicate Ahead(es: seq<(Value, Value)>, i: nat, rest: bytes) {
    i <= |es| && rest == EncodeEntries(es[i..])
  }

  /**
    A positional map decoder at work: `s` is what followed the map's head, `done` the entries read
    so far, `rest` what is unread; `want`, unless empty, are the entries that `s` encodes.
   */
  ghost predicate Reading(s: bytes, done: seq<(Value, Value)>, want: seq<(Value, Value)>, rest: bytes) {
    s == EncodeEntries(done) + rest && (want != [] ==> SizedEntries(want) && Ahead(want, |done|, rest))
  }

  lemma {:induction false} WantNext(s: bytes, done: seq<(Value, Value)>, want: seq<(Value, Value)>, rest: bytes)
    requires Reading(s, done, want, rest) && |done| < |want|
    ensures var (k, v) := want[|done|];
            var t := EncodeEntries(want[|done| + 1..]);
            Next(rest, k, Encode(v) + t) && Next(Encode(v) + t, v, t)
  {
    AheadNext(want, |done|, rest);
  }

  lemma {:induction false} ReadingOn(s: bytes, done: seq<(Value, Value)>, want: seq<(Value, Value)>,
                  before: bytes, k: Value, mid: bytes, v: Value, after: bytes)
    requires Reading(s, done, want, before) && Next(before, k, mid) && Next(mid, v, after)
    requires Sized(k) && Sized(v)
    ensures Reading(s, done + [(k, v)], want, after)
  {
    hide Head, Encode, EncodeEntries;
    EntryRead(s, done, before, k, mid, v, after);
    if want != [] {
      NotAtEnd(want, |done|, before, k, mid);
      AheadNext(want, |done|, before);
      var (wk, wv) := want[|done|];
      PrefixFree(k, mid, wk, Encode(wv) + EncodeEntries(want[|done| + 1..]));
      PrefixFree(v, after, wv, EncodeEntries(want[|done| + 1..]));
    }
  }

  lemma {:induction false} NotAtEnd(want: seq<(Value, Value)>, i: nat, rest: bytes, k: Value, mid: bytes)
    requires Ahead(want, i, rest) && Next(rest, k, mid)
    ensures i < |want|
  {
    assert |rest| >= 1;
    assert EncodeEntries(want[i..]) != [] ==> want[i..] != [];
  }

  lemma {:induction false} AheadNext(es: seq<(Value, Value)>, i: nat, rest: bytes)
    requires i < |es| && Ahead(es, i, rest)
    ensures var t := EncodeEntries(es[i + 1..]);
            Next(rest, es[i].0, Encode(es[i].1) + t) && Next(Encode(es[i].1) + t, es[i].1, t) && Ahead(es, i + 1, t)
  {
    assert es[i..][1..] == es[i + 1..];
    assert es[i..][0] == es[i];
  }

  lemma {:induction false} EntryRead(s: bytes, done: seq<(Value, Value)>, before: bytes, k: Value, mid: bytes,
      v: Value, after: bytes)
    requires s == EncodeEntries(done) + before && Next(before, k, mid) && Next(mid, v, after)
    ensures s == EncodeEntries(done + [(k, v)]) + after
  {
    hide Head, Encode, EncodeEntries;
    EncodeEntriesSnoc(done, k, v);
    var d, x, y := EncodeEntries(done), Encode(k), Encode(v);
    assert d + x + y + after == d + (x + (y + after));
  }

  lemma {:induction false} NotBelow(a: bytes, b: bytes)
    requires LessEq(b, a)
    ensures !Less(a, b)
  {
    if Less(a, b) {
      LessAsymmetric(a, b);
    }
  }

  /**
    Strict decode of untrusted bytes into a top-level map. Two-way: it returns `m` exactly when `m`
    is a map within the depth, entry and string caps with keys strictly ascending and the input is
    the canonical encoding of `m`, so it accepts precisely the image of the encoder.
   */
  method StrictDecodeMapCapped(bytes: bytes, maxBstr: u64) returns (r: Option<seq<(Value, Value)>>)
    ensures forall m :: r == Some(m) <==> Legal(MapV(m), 1, maxBstr) && bytes == Encode(MapV(m))
    ensures r == DecodedMap(bytes, maxBstr)
  {
    var p := new StrictParser(bytes, maxBstr);
    forall m | Legal(MapV(m), 1, maxBstr) && bytes == Encode(MapV(m))
      ensures DecodedMap(bytes, maxBstr) == Some(m) && Decoded(bytes, 1, maxBstr) == Some(MapV(m))
    {
      DecodedMapIs(bytes, m, maxBstr);
      assert Starts(bytes, MapV(m), 1, maxBstr);
      DecodedIs(bytes, MapV(m), 1, maxBstr);
    }
    var v :- p.Item(1);
    LegalIsSized(v, 1, maxBstr);
    if p.pos != |bytes| {
      return None;
    }
    assert bytes == Encode(v) + [];
    match v {
      case MapV(m) =>
        DecodedMapIs(bytes, m, maxBstr);
        r := Some(m);
      case _ =>
        return None;
    }
  }

  method StrictDecodeMap(bytes: bytes) returns (r: Option<seq<(Value, Value)>>)
    ensures r == DecodedMap(bytes, MAX_STR_LEN)
  {
    r := StrictDecodeMapCapped(bytes, MAX_STR_LEN);
  }

  /** The map the strict decoder yields for `bytes`: the legal one that encodes to them, if any. */
  ghost function DecodedMap(bytes: bytes, cap: u64): (r: Option<seq<(Value, Value)>>)
    ensures r.Some? ==> Legal(MapV(r.value), 1, cap) && bytes == Encode(MapV(r.value))
    ensures r.None? ==> forall m :: !(Legal(MapV(m), 1, cap) && bytes == Encode(MapV(m)))
  {
    if exists m :: Legal(MapV(m), 1, cap) && bytes == Encode(MapV(m)) then
      var m :| Legal(MapV(m), 1, cap) && bytes == Encode(MapV(m));
      Some(m)
    else None
  }

  lemma {:induction false} DecodedMapIs(bytes: bytes, m: seq<(Value, Value)>, cap: u64)
    requires Legal(MapV(m), 1, cap) && bytes == Encode(MapV(m))
    ensures DecodedMap(bytes, cap) == Some(m)
  {
    var n := DecodedMap(bytes, cap).value;
    LegalIsSized(MapV(m), 1, cap);
    LegalIsSized(MapV(n), 1, cap);
    EncodeInjective(MapV(m), MapV(n));
  }
}
