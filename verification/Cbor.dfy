/**
  The CBOR values of the agent wire maps, their one canonical encoding (RFC 8949, section 4.2.1),
  and what the strict decoder may accept.

  `Encode` is the only encoder of the model: signed preimages, requests, responses and the marks
  payload are all encodings of some `Value`.
 */
module Cbor {
  import opened Wrappers
  import opened Bytes

  /** The integers CBOR majors 0 and 1 can carry. */
  type integer = x: int | -0x1_0000_0000_0000_0000 <= x <= 0xFFFF_FFFF_FFFF_FFFF

  datatype Value =
    | Int(n: integer)
    | Bstr(b: bytes)
    | Text(t: bytes)
    | Arr(items: seq<Value>)
    | MapV(entries: seq<(Value, Value)>)
    | Boolean(v: bool)

  const MAX_CBOR_DEPTH: nat := 4
  const MAX_MAP_ENTRIES: nat := 64
  const MAX_ARRAY_ENTRIES: nat := 64
  const MAX_STR_LEN: nat := 4096

  // ---------------------------------------------------------------- item heads

  /** The shortest-form head of RFC 8949, section 3: major type and argument. */
  function Head(major: nat, arg: nat): (h: bytes)
    requires major < 8
    ensures 1 <= |h| <= 9
  {
    if arg < 24 then [major * 32 + arg]
    else if arg <= U8_MAX then [major * 32 + 24, arg]
    else if arg <= U16_MAX then [major * 32 + 25] + BE(2, arg)
    else if arg <= U32_MAX then [major * 32 + 26] + BE(4, arg)
    else [major * 32 + 27] + BE(8, arg)
  }

  /** Argument bytes announced by the low five bits of an initial byte; none for 28 and above. */
  function ArgWidth(minor: nat): (w: nat)
    requires minor < 28
  {
    if minor < 24 then 0 else if minor == 24 then 1 else if minor == 25 then 2 else if minor == 26 then 4 else 8
  }

  /**
    `h` is a head for (major, arg) in any form section 3 allows, shortest or not. This is the
    reference reading of a head, written without the encoder.
   */
  ghost predicate Denotes(h: bytes, major: nat, arg: nat) {
    && h != []
    && h[0] / 32 == major
    && h[0] % 32 < 28
    && |h| == 1 + ArgWidth(h[0] % 32)
    && arg == if h[0] % 32 < 24 then h[0] % 32 else FromBE(h[1..])
  }

  lemma {:induction false} FromBE1(b: bytes)
    requires |b| == 1
    ensures FromBE(b) == b[0]
  {
    assert b[..0] == [];
  }

  lemma {:induction false} HeadDenotes(major: nat, arg: u64)
    requires major < 8
    ensures Denotes(Head(major, arg), major, arg)
  {
    Pow256Values();
    var h := Head(major, arg);
    if 24 <= arg <= U8_MAX {
      FromBE1(h[1..]);
    } else if U8_MAX < arg <= U16_MAX {
      assert h[1..] == BE(2, arg);
      FromBEOfBE(2, arg);
    } else if U16_MAX < arg <= U32_MAX {
      assert h[1..] == BE(4, arg);
      FromBEOfBE(4, arg);
    } else if U32_MAX < arg {
      assert h[1..] == BE(8, arg);
      FromBEOfBE(8, arg);
    }
  }

  /** No form of a head is shorter than `Head`, and none of the same length differs from it. */
  lemma {:induction false} HeadIsShortest(h: bytes, major: nat, arg: nat)
    requires Denotes(h, major, arg)
    ensures major < 8 && arg <= U64_MAX
    ensures |Head(major, arg)| <= |h|
    ensures |h| == |Head(major, arg)| ==> h == Head(major, arg)
  {
    Pow256Values();
    FromBEBound(h[1..]);
    var minor := h[0] % 32;
    assert h == [h[0]] + h[1..];
    if minor == 24 {
      FromBE1(h[1..]);
    } else if minor > 24 {
      BEOfFromBE(h[1..]);
    }
  }

  /** The two halves of shortest form together: what `Head` emits and nothing else. */
  predicate ShortestArg(minor: nat, arg: nat) {
    match ArgWidthClass(minor)
    case 0 => arg == minor
    case 1 => 24 <= arg <= U8_MAX
    case 2 => U8_MAX < arg <= U16_MAX
    case 3 => U16_MAX < arg <= U32_MAX
    case 4 => U32_MAX < arg <= U64_MAX
    case _ => false
  }

  function ArgWidthClass(minor: nat): (c: nat) {
    if minor < 24 then 0 else if minor <= 27 then minor - 23 else 5
  }

  /** A head that denotes (major, arg) with an argument in its form's proper range is `Head`. */
  lemma {:induction false} ShortestIsHead(h: bytes, major: nat, arg: nat)
    requires Denotes(h, major, arg) && ShortestArg(h[0] % 32, arg)
    ensures major < 8 && arg <= U64_MAX && h == Head(major, arg)
  {
    HeadIsShortest(h, major, arg);
  }

  /** ... and `Head` always has its argument in that range. */
  lemma {:induction false} HeadShape(major: nat, arg: u64)
    requires major < 8
    ensures var h := Head(major, arg);
            h[0] / 32 == major && ShortestArg(h[0] % 32, arg) && Denotes(h, major, arg)
  {
    HeadDenotes(major, arg);
  }

  /** Heads are self-delimiting: a byte string starts with at most one head. */
  lemma {:induction false} HeadPrefixFree(m1: nat, a1: u64, s: bytes, m2: nat, a2: u64, t: bytes)
    requires m1 < 8 && m2 < 8
    requires Head(m1, a1) + s == Head(m2, a2) + t
    ensures m1 == m2 && a1 == a2 && s == t
  {
    var h1, h2 := Head(m1, a1), Head(m2, a2);
    HeadDenotes(m1, a1);
    HeadDenotes(m2, a2);
    assert h1[0] == (h1 + s)[0] == (h2 + t)[0] == h2[0];
    assert h1 == (h1 + s)[..|h1|] && h2 == (h2 + t)[..|h2|];
    assert s == (h1 + s)[|h1|..] && t == (h2 + t)[|h2|..];
  }

  // ---------------------------------------------------------------- values

  function Encode(v: Value): (e: bytes)
    ensures |e| >= 1
    decreases v
  {
    match v
    case Int(n) => if n >= 0 then Head(0, n) else Head(1, -1 - n)
    case Bstr(b) => Head(2, |b|) + b
    case Text(t) => Head(3, |t|) + t
    case Arr(items) => Head(4, |items|) + EncodeItems(items)
    case MapV(entries) => Head(5, |entries|) + EncodeEntries(entries)
    case Boolean(v) => if v then [0xf5] else [0xf4]
  }

  function EncodeItems(items: seq<Value>): (e: bytes)
    ensures |e| >= |items|
    decreases items
  {
    if items == [] then [] else Encode(items[0]) + EncodeItems(items[1..])
  }

  function EncodeEntries(entries: seq<(Value, Value)>): (e: bytes)
    ensures |e| >= 2 * |entries|
    decreases entries
  {
    if entries == [] then []
    else
      var (k, v) := entries[0];
      assert k < entries[0] && v < entries[0];
      Encode(k) + (Encode(v) + EncodeEntries(entries[1..]))
  }

  /** Every length in the value fits the 64-bit argument of a head. */
  predicate Sized(v: Value)
    decreases v
  {
    match v
    case Int(_) => true
    case Bstr(b) => |b| <= U64_MAX
    case Text(t) => |t| <= U64_MAX
    case Arr(items) => |items| <= U64_MAX && forall i | 0 <= i < |items| :: Sized(items[i])
    case MapV(entries) =>
      && |entries| <= U64_MAX
      && forall i | 0 <= i < |entries| ::
           Sized(entries[i].0) && Sized(entries[i].1)
    case Boolean(_) => true
  }

  /** An integer, boolean or string whose length fits a head. */
  predicate LeafSized(v: Value) {
    v.Int? || v.Boolean? || (v.Bstr? && |v.b| <= U64_MAX) || (v.Text? && |v.t| <= U64_MAX)
  }

  lemma {:induction false} FlatSized(entries: seq<(Value, Value)>)
    requires |entries| <= U64_MAX
    requires forall i | 0 <= i < |entries| :: LeafSized(entries[i].0) && LeafSized(entries[i].1)
    ensures Sized(MapV(entries))
  {
    forall i | 0 <= i < |entries| ensures Sized(entries[i].0) && Sized(entries[i].1) {
      assert LeafSized(entries[i].0) && LeafSized(entries[i].1);
    }
  }

  predicate SizedItems(items: seq<Value>) {
    forall i | 0 <= i < |items| :: Sized(items[i])
  }

  predicate SizedEntries(entries: seq<(Value, Value)>) {
    forall i | 0 <= i < |entries| :: Sized(entries[i].0) && Sized(entries[i].1)
  }

  /**
    Canonical encodings are self-delimiting: if two of them start the same byte string, the values
    are equal. Unique decodability of the wire format.
   */
  lemma {:induction false} PrefixFree(v: Value, s: bytes, w: Value, t: bytes)
    requires Sized(v) && Sized(w)
    requires Encode(v) + s == Encode(w) + t
    ensures v == w && s == t
    decreases v, 0
  {
    SplitPrefix(v, s, w, t);
    if v.Arr? {
      PrefixFreeItems(v.items, s, w.items, t);
    } else if v.MapV? {
      PrefixFreeEntries(v.entries, s, w.entries, t);
    } else {
      LeafBody(v);
      LeafBody(w);
      SplitAt(Split(v).2, s, Split(w).2, t);
      LeafInjective(v, w);
    }
  }

  /** The head step of unique decodability. */
  lemma {:induction false} SplitPrefix(v: Value, s: bytes, w: Value, t: bytes)
    requires Sized(v) && Sized(w)
    requires Encode(v) + s == Encode(w) + t
    ensures Split(v).0 == Split(w).0 && Split(v).1 == Split(w).1
    ensures Split(v).2 + s == Split(w).2 + t
  {
    hide Head, Encode, Split, Sized;
    var (mv, av, bv) := Split(v);
    var (mw, aw, bw) := Split(w);
    SplitEncodes(v);
    SplitEncodes(w);
    SizedSplit(v);
    SizedSplit(w);
    assert Head(mv, av) + (bv + s) == Encode(v) + s;
    assert Head(mw, aw) + (bw + t) == Encode(w) + t;
    HeadPrefixFree(mv, av, bv + s, mw, aw, bw + t);
  }

  lemma {:induction false} LeafBody(v: Value)
    requires !v.Arr? && !v.MapV?
    ensures |Split(v).2| == if v.Bstr? || v.Text? then Split(v).1 else 0
  {
  }

  lemma {:induction false} LeafInjective(v: Value, w: Value)
    requires !v.Arr? && !v.MapV? && Split(v) == Split(w)
    ensures v == w
  {
  }

  /** Head major, head argument and body of an encoding. */
  function Split(v: Value): (p: (nat, nat, bytes))
    ensures p.0 < 8
  {
    match v
    case Int(n) => if n >= 0 then (0, n, []) else (1, -1 - n, [])
    case Bstr(b) => (2, |b|, b)
    case Text(t) => (3, |t|, t)
    case Arr(items) => (4, |items|, EncodeItems(items))
    case MapV(entries) => (5, |entries|, EncodeEntries(entries))
    case Boolean(v) => (7, if v then 21 else 20, [])
  }

  lemma {:induction false} SizedSplit(v: Value)
    requires Sized(v)
    ensures Split(v).1 <= U64_MAX
  {
  }

  lemma {:induction false} SplitEncodes(v: Value)
    ensures var (m, a, b) := Split(v);
            Encode(v) == Head(m, a) + b
  {
  }

  lemma {:induction false} PrefixFreeItems(xs: seq<Value>, s: bytes, ys: seq<Value>, t: bytes)
    requires SizedItems(xs) && SizedItems(ys) && |xs| == |ys|
    requires EncodeItems(xs) + s == EncodeItems(ys) + t
    ensures xs == ys && s == t
    decreases xs, 0
  {
    if xs != [] {
      var xt, yt := EncodeItems(xs[1..]), EncodeItems(ys[1..]);
      assert EncodeItems(xs) + s == Encode(xs[0]) + (xt + s);
      assert EncodeItems(ys) + t == Encode(ys[0]) + (yt + t);
      PrefixFree(xs[0], xt + s, ys[0], yt + t);
      PrefixFreeItems(xs[1..], s, ys[1..], t);
      assert xs == [xs[0]] + xs[1..] && ys == [ys[0]] + ys[1..];
    } else {
      assert EncodeItems(xs) + s == s && EncodeItems(ys) + t == t;
    }
  }

  lemma {:induction false} PrefixFreeEntries(xs: seq<(Value, Value)>, s: bytes, ys: seq<(Value, Value)>, t: bytes)
    requires SizedEntries(xs) && SizedEntries(ys) && |xs| == |ys|
    requires EncodeEntries(xs) + s == EncodeEntries(ys) + t
    ensures xs == ys && s == t
    decreases xs, 0
  {
    if xs != [] {
      assert xs[0].0 < xs[0] && xs[0].1 < xs[0];
      var xt, yt := EncodeEntries(xs[1..]), EncodeEntries(ys[1..]);
      assert EncodeEntries(xs) + s == Encode(xs[0].0) + (Encode(xs[0].1) + (xt + s));
      assert EncodeEntries(ys) + t == Encode(ys[0].0) + (Encode(ys[0].1) + (yt + t));
      PrefixFree(xs[0].0, Encode(xs[0].1) + (xt + s), ys[0].0, Encode(ys[0].1) + (yt + t));
      PrefixFree(xs[0].1, xt + s, ys[0].1, yt + t);
      PrefixFreeEntries(xs[1..], s, ys[1..], t);
      assert xs == [xs[0]] + xs[1..] && ys == [ys[0]] + ys[1..];
    } else {
      assert EncodeEntries(xs) + s == s && EncodeEntries(ys) + t == t;
    }
  }

  lemma {:induction false} EncodeInjective(v: Value, w: Value)
    requires Sized(v) && Sized(w) && Encode(v) == Encode(w)
    ensures v == w
  {
    assert Encode(v) + [] == Encode(w) + [];
    PrefixFree(v, [], w, []);
  }

  // ---------------------------------------------------------------- appending

  lemma {:induction false} EncodeItemsAppend(xs: seq<Value>, ys: seq<Value>)
    ensures EncodeItems(xs + ys) == EncodeItems(xs) + EncodeItems(ys)
  {
    if xs == [] {
      assert xs + ys == ys;
    } else {
      assert (xs + ys)[1..] == xs[1..] + ys;
      EncodeItemsAppend(xs[1..], ys);
    }
  }

  lemma {:induction false} EncodeEntriesAppend(xs: seq<(Value, Value)>, ys: seq<(Value, Value)>)
    ensures EncodeEntries(xs + ys) == EncodeEntries(xs) + EncodeEntries(ys)
  {
    if xs == [] {
      assert xs + ys == ys;
    } else {
      assert (xs + ys)[1..] == xs[1..] + ys;
      EncodeEntriesAppend(xs[1..], ys);
    }
  }

  lemma {:induction false} EncodeItemsSnoc(xs: seq<Value>, x: Value)
    ensures EncodeItems(xs + [x]) == EncodeItems(xs) + Encode(x)
  {
    EncodeItemsAppend(xs, [x]);
    assert EncodeItems([x]) == Encode(x) + EncodeItems([]) by { assert [x][1..] == []; }
  }

  lemma {:induction false} EncodeEntriesSnoc(xs: seq<(Value, Value)>, k: Value, v: Value)
    ensures EncodeEntries(xs + [(k, v)]) == EncodeEntries(xs) + Encode(k) + Encode(v)
  {
    EncodeEntriesAppend(xs, [(k, v)]);
    assert EncodeEntries([(k, v)]) == Encode(k) + (Encode(v) + EncodeEntries([])) by { assert [(k, v)][1..] == []; }
  }

  // ---------------------------------------------------------------- UTF-8

  predicate Continuation(x: byte) {
    0x80 <= x <= 0xBF
  }

  /** Length of the well-formed UTF-8 sequence at the front of `s` (0 if there is none). */
  function Utf8Step(s: bytes): (n: nat)
    requires s != []
    ensures n <= |s| && n <= 4
  {
    if s[0] <= 0x7F then 1
    else if 0xC2 <= s[0] <= 0xDF then
      if |s| >= 2 && Continuation(s[1]) then 2 else 0
    else if 0xE0 <= s[0] <= 0xEF then
      if && |s| >= 3 && Continuation(s[1]) && Continuation(s[2])
         && (s[0] == 0xE0 ==> s[1] >= 0xA0) && (s[0] == 0xED ==> s[1] <= 0x9F)
      then 3 else 0
    else if 0xF0 <= s[0] <= 0xF4 then
      if && |s| >= 4 && Continuation(s[1]) && Continuation(s[2]) && Continuation(s[3])
         && (s[0] == 0xF0 ==> s[1] >= 0x90) && (s[0] == 0xF4 ==> s[1] <= 0x8F)
      then 4 else 0
    else 0
  }

  /** The byte strings that are valid UTF-8 (RFC 3629): no overlong forms, no surrogates. */
  predicate ValidUtf8(s: bytes) {
    s == [] || (Utf8Step(s) > 0 && ValidUtf8(s[Utf8Step(s)..]))
  }

  // ---------------------------------------------------------------- what the strict decoder accepts

  /** Map keys strictly ascending by their encoded bytes. */
  predicate KeysAscend(entries: seq<(Value, Value)>) {
    forall i | 0 <= i < |entries| - 1 :: Less(Encode(entries[i].0), Encode(entries[i + 1].0))
  }

  /** `v` may stand at nesting depth `depth` when byte and text strings are capped at `cap`. */
  predicate Legal(v: Value, depth: nat, cap: nat)
    decreases v
  {
    && depth <= MAX_CBOR_DEPTH
    && match v
       case Int(_) => true
       case Bstr(b) => |b| <= cap
       case Text(t) => |t| <= cap && ValidUtf8(t)
       case Arr(items) =>
         && |items| <= MAX_ARRAY_ENTRIES
         && forall i | 0 <= i < |items| :: Legal(items[i], depth + 1, cap)
       case MapV(entries) =>
         && |entries| <= MAX_MAP_ENTRIES
         && KeysAscend(entries)
         && forall i | 0 <= i < |entries| ::
              Legal(entries[i].0, depth + 1, cap) && Legal(entries[i].1, depth + 1, cap)
       case Boolean(_) => true
  }

  lemma {:induction false} LegalIsSized(v: Value, depth: nat, cap: nat)
    requires Legal(v, depth, cap) && cap <= U64_MAX
    ensures Sized(v)
    decreases v
  {
    match v
    case Arr(items) =>
      forall i | 0 <= i < |items| ensures Sized(items[i]) {
        LegalIsSized(items[i], depth + 1, cap);
      }
    case MapV(entries) =>
      forall i | 0 <= i < |entries| ensures Sized(entries[i].0) && Sized(entries[i].1) {
        LegalIsSized(entries[i].0, depth + 1, cap);
        LegalIsSized(entries[i].1, depth + 1, cap);
      }
    case _ =>
  }

  /** `v` is legal at `depth` and its canonical encoding starts `s`. */
  ghost predicate Starts(s: bytes, v: Value, depth: nat, cap: u64) {
    Legal(v, depth, cap) && Encode(v) <= s
  }

  /** The legal value whose encoding starts `s`, if there is one. */
  ghost function Decoded(s: bytes, depth: nat, cap: u64): (r: Option<Value>)
    ensures r.Some? ==> Starts(s, r.value, depth, cap)
    ensures r.None? ==> forall v :: !Starts(s, v, depth, cap)
  {
    if exists v :: Starts(s, v, depth, cap) then
      var v :| Starts(s, v, depth, cap);
      Some(v)
    else None
  }

  /** There is at most one such value. */
  lemma {:induction false} StartsUnique(s: bytes, v: Value, d1: nat, w: Value, d2: nat, cap: u64)
    requires Starts(s, v, d1, cap) && Starts(s, w, d2, cap)
    ensures v == w
  {
    LegalIsSized(v, d1, cap);
    LegalIsSized(w, d2, cap);
    assert s == Encode(v) + s[|Encode(v)|..] == Encode(w) + s[|Encode(w)|..];
    PrefixFree(v, s[|Encode(v)|..], w, s[|Encode(w)|..]);
  }

  lemma {:induction false} DecodedIs(s: bytes, v: Value, depth: nat, cap: u64)
    requires Starts(s, v, depth, cap)
    ensures Decoded(s, depth, cap) == Some(v)
  {
    StartsUnique(s, v, depth, Decoded(s, depth, cap).value, depth, cap);
  }

}
