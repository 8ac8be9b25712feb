/**
  Byte strings, big-endian integers and the lexicographic order that Rust's `Ord` gives to byte
  slices and byte arrays.
 */
module Bytes {
  type byte = x: int | 0 <= x < 256
  type bytes = seq<byte>

  const U8_MAX: nat := 0xFF
  const U16_MAX: nat := 0xFFFF
  const U32_MAX: nat := 0xFFFF_FFFF
  const U64_MAX: nat := 0xFFFF_FFFF_FFFF_FFFF

  type u8 = x: nat | x <= 0xFF
  type u16 = x: nat | x <= 0xFFFF
  type u64 = x: nat | x <= 0xFFFF_FFFF_FFFF_FFFF

  type bytes32 = b: bytes | |b| == 32 witness seq(32, _ => 0)
  type bytes64 = b: bytes | |b| == 64 witness seq(64, _ => 0)

  /** An ASCII label as bytes (every label in the protocols is ASCII). */
  function Ascii(s: string): (b: bytes)
    requires forall i | 0 <= i < |s| :: s[i] < 128 as char
    ensures |b| == |s|
    ensures forall i | 0 <= i < |s| :: b[i] == s[i] as int
  {
    seq(|s|, i requires 0 <= i < |s| => s[i] as int)
  }

  lemma {:induction false} SplitAt(a: bytes, s: bytes, b: bytes, t: bytes)
    requires |a| == |b| && a + s == b + t
    ensures a == b && s == t
  {
    assert a == (a + s)[..|a|] && b == (b + t)[..|b|];
    assert s == (a + s)[|a|..] && t == (b + t)[|b|..];
  }

  // ---------------------------------------------------------------- big-endian integers

  function Pow256(n: nat): (p: nat)
    ensures p >= 1
  {
    if n == 0 then 1 else 256 * Pow256(n - 1)
  }

  lemma {:induction false} Pow256Values()
    ensures Pow256(1) == U8_MAX + 1
    ensures Pow256(2) == U16_MAX + 1
    ensures Pow256(4) == U32_MAX + 1
    ensures Pow256(8) == U64_MAX + 1
  {
    assert Pow256(4) == 0x1_0000_0000;
    assert Pow256(8) == 256 * (256 * (256 * (256 * Pow256(4))));
  }

  /** `v` modulo 256^width as exactly `width` big-endian bytes (`to_be_bytes` of a truncating cast). */
  function BE(width: nat, v: nat): (b: bytes)
    ensures |b| == width
  {
    if width == 0 then [] else BE(width - 1, v / 256) + [v % 256]
  }

  function FromBE(b: bytes): (v: nat)
  {
    if b == [] then 0 else FromBE(b[..|b| - 1]) * 256 + b[|b| - 1]
  }

  lemma {:induction false} FromBEBound(b: bytes)
    ensures FromBE(b) < Pow256(|b|)
  {
    if b != [] {
      FromBEBound(b[..|b| - 1]);
    }
  }

  /** Big-endian decoding undoes big-endian encoding for every value that fits. */
  lemma {:induction false} FromBEOfBE(width: nat, v: nat)
    requires v < Pow256(width)
    ensures FromBE(BE(width, v)) == v
  {
    if width > 0 {
      var b := BE(width, v);
      assert b[..|b| - 1] == BE(width - 1, v / 256);
      FromBEOfBE(width - 1, v / 256);
    }
  }

  /** ... and encoding undoes decoding, so fixed-width big-endian is a bijection. */
  lemma {:induction false} BEOfFromBE(b: bytes)
    ensures BE(|b|, FromBE(b)) == b
  {
    if b != [] {
      var front := b[..|b| - 1];
      BEOfFromBE(front);
      assert FromBE(b) / 256 == FromBE(front) && FromBE(b) % 256 == b[|b| - 1];
      assert b == front + [b[|b| - 1]];
    }
  }

  // ---------------------------------------------------------------- lexicographic order

  /** Rust's `<` on byte slices: first difference decides, a proper prefix is smaller. */
  predicate Less(a: bytes, b: bytes) {
    b != [] && (a == [] || a[0] < b[0] || (a[0] == b[0] && Less(a[1..], b[1..])))
  }

  predicate LessEq(a: bytes, b: bytes) {
    a == b || Less(a, b)
  }

  lemma {:induction false} LessIrreflexive(a: bytes)
    ensures !Less(a, a)
  {
    if a != [] {
      LessIrreflexive(a[1..]);
    }
  }

  lemma {:induction false} LessTransitive(a: bytes, b: bytes, c: bytes)
    requires Less(a, b) && Less(b, c)
    ensures Less(a, c)
  {
    if a != [] && a[0] == b[0] == c[0] {
      LessTransitive(a[1..], b[1..], c[1..]);
    }
  }

  lemma {:induction false} LessAsymmetric(a: bytes, b: bytes)
    requires Less(a, b)
    ensures !Less(b, a) && a != b
  {
    if Less(b, a) {
      LessTransitive(a, b, a);
    }
    LessIrreflexive(a);
  }

  lemma {:induction false} LessTotal(a: bytes, b: bytes)
    ensures a == b || Less(a, b) || Less(b, a)
  {
    if a != [] && b != [] && a[0] == b[0] {
      LessTotal(a[1..], b[1..]);
      assert a == [a[0]] + a[1..] && b == [b[0]] + b[1..];
    }
  }

  /** A common prefix does not matter. */
  lemma {:induction false} LessSamePrefix(p: bytes, a: bytes, b: bytes)
    ensures Less(p + a, p + b) <==> Less(a, b)
  {
    if p == [] {
      assert p + a == a && p + b == b;
    } else {
      assert (p + a)[1..] == p[1..] + a && (p + b)[1..] == p[1..] + b;
      LessSamePrefix(p[1..], a, b);
    }
  }

  lemma {:induction false} FromBEHead(b: bytes)
    requires b != []
    ensures FromBE(b) == b[0] * Pow256(|b| - 1) + FromBE(b[1..])
  {
    if |b| == 1 {
      assert b[..0] == [] && b[1..] == [];
    } else {
      var front := b[..|b| - 1];
      FromBEHead(front);
      assert b[1..][..|b| - 2] == front[1..];
      assert b[1..] != [] && b[1..][|b| - 2] == b[|b| - 1];
      var h, p, t := b[0], Pow256(|b| - 2), FromBE(front[1..]);
      assert FromBE(front) == h * p + t;
      assert (h * p + t) * 256 == h * (256 * p) + t * 256;
    }
  }

  /** The leading byte dominates: `x` and `y` are below the weight `p` of the leading byte. */
  lemma {:induction false} LeadingByte(h: nat, k: nat, p: nat, x: nat, y: nat)
    requires h < k && x < p
    ensures h * p + x < k * p + y
  {
    assert (k - h - 1) * p >= 0;
    assert k * p == h * p + p + (k - h - 1) * p;
  }

  /**
    For equal widths the byte order is the numeric order: comparing two 32-byte big-endian spends
    with Rust's array `Ord` compares the 256-bit numbers.
   */
  lemma {:induction false} LessIsNumeric(a: bytes, b: bytes)
    requires |a| == |b|
    ensures Less(a, b) <==> FromBE(a) < FromBE(b)
  {
    if a != [] {
      FromBEHead(a);
      FromBEHead(b);
      LessIsNumeric(a[1..], b[1..]);
      var p, x, y := Pow256(|a| - 1), FromBE(a[1..]), FromBE(b[1..]);
      assert x < p && y < p by {
        FromBEBound(a[1..]);
        FromBEBound(b[1..]);
      }
      if a[0] < b[0] {
        LeadingByte(a[0], b[0], p, x, y);
      } else if b[0] < a[0] {
        LeadingByte(b[0], a[0], p, y, x);
      }
    }
  }

  lemma {:induction false} LessEqIsNumeric(a: bytes, b: bytes)
    requires |a| == |b|
    ensures LessEq(a, b) <==> FromBE(a) <= FromBE(b)
  {
    LessIsNumeric(a, b);
    if FromBE(a) == FromBE(b) {
      BEOfFromBE(a);
      BEOfFromBE(b);
    }
  }
}
