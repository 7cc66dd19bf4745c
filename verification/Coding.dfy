/** Fixed-width and variable-length integers (util/coding.h, util/coding.cc) and
    the masking of checksums (util/crc32c.h). */
module Coding {
  import opened Wrappers
  import opened Keys

  const TWO_32: nat := 0x1_0000_0000
  const TWO_64: nat := 0x1_0000_0000_0000_0000

  function EncodeFixed32(v: nat): (r: seq<Byte>)
    requires v < TWO_32
    ensures |r| == 4 && DecodeFixed32(r) == v
  {
    var v1 := v / 256;
    var v2 := v1 / 256;
    [v % 256, v1 % 256, v2 % 256, v2 / 256]
  }

  function DecodeFixed32(s: seq<Byte>): (v: nat)
    requires |s| == 4
    ensures v < TWO_32
  {
    s[0] as nat + 256 * (s[1] as nat) + 65536 * (s[2] as nat) + 16777216 * (s[3] as nat)
  }

  function EncodeFixed64(v: nat): (r: seq<Byte>)
    requires v < TWO_64
    ensures |r| == 8 && DecodeFixed64(r) == v
  {
    var lo, hi := EncodeFixed32(v % TWO_32), EncodeFixed32(v / TWO_32);
    assert (lo + hi)[..4] == lo && (lo + hi)[4..] == hi;
    lo + hi
  }

  function DecodeFixed64(s: seq<Byte>): (v: nat)
    requires |s| == 8
    ensures v < TWO_64
  {
    DecodeFixed32(s[..4]) + TWO_32 * DecodeFixed32(s[4..])
  }

  /** Fixed-width words, one after the other. */
  predicate AllFit(words: seq<nat>)
  {
    forall j :: 0 <= j < |words| ==> words[j] < TWO_32
  }

  function FixedArray(words: seq<nat>): (r: seq<Byte>)
    requires AllFit(words)
    ensures |r| == 4 * |words|
  {
    if words == [] then []
    else FixedArray(words[..|words| - 1]) + EncodeFixed32(words[|words| - 1])
  }

  lemma {:induction false} FixedArrayAt(words: seq<nat>, j: nat)
    requires AllFit(words) && j < |words|
    ensures FixedArray(words)[4 * j..4 * j + 4] == EncodeFixed32(words[j])
  {
    var init := words[..|words| - 1];
    if j < |init| {
      FixedArrayAt(init, j);
      assert FixedArray(words)[4 * j..4 * j + 4] == FixedArray(init)[4 * j..4 * j + 4];
    }
  }

  // ----- crc masking -----

  const MASK_DELTA: nat := 0xa282ead8

  /** Rotate right by 15 bits and add a constant, modulo 2^32. */
  function Mask(crc: nat): (m: nat)
    requires crc < TWO_32
    ensures m < TWO_32
  {
    (crc / 0x8000 + crc % 0x8000 * 0x2_0000 + MASK_DELTA) % TWO_32
  }

  function Unmask(masked: nat): (crc: nat)
    requires masked < TWO_32
    ensures crc < TWO_32
  {
    var rot := (masked + TWO_32 - MASK_DELTA) % TWO_32;
    rot / 0x2_0000 + rot % 0x2_0000 * 0x8000
  }

  lemma UnmaskOfMask(crc: nat)
    requires crc < TWO_32
    ensures Unmask(Mask(crc)) == crc
  {
    var hi, lo := crc / 0x8000, crc % 0x8000;
    var rotated := hi + lo * 0x2_0000;
    UnrotateRotated(hi, lo);
    ShiftBack(rotated);
  }

  lemma UnrotateRotated(hi: nat, lo: nat)
    requires hi < 0x2_0000 && lo < 0x8000
    ensures var rot := hi + lo * 0x2_0000; rot < TWO_32 && rot / 0x2_0000 == lo && rot % 0x2_0000 == hi
  {
  }

  lemma ShiftBack(x: nat)
    requires x < TWO_32
    ensures ((x + MASK_DELTA) % TWO_32 + TWO_32 - MASK_DELTA) % TWO_32 == x
  {
  }

  // ----- varints -----

  /** Seven bits a byte, least significant first; the top bit says more follow. */
  function Varint(v: nat): (r: seq<Byte>)
    ensures |r| > 0
  {
    if v < 128 then [v] else [v % 128 + 128] + Varint(v / 128)
  }

  /** The varint at position `p`, at most `bytes` long, and where it ends. */
  function ReadVarint(s: seq<Byte>, p: nat, bytes: nat): (r: Option<(nat, nat)>)
    requires p <= |s|
    ensures r.Some? ==> p < r.value.1 <= |s|
    decreases bytes
  {
    if bytes == 0 || p == |s| then None
    else if s[p] < 128 then Some((s[p], p + 1))
    else
      match ReadVarint(s, p + 1, bytes - 1)
      case None => None
      case Some(rest) => Some((s[p] - 128 + 128 * rest.0, rest.1))
  }

  function Pow128(n: nat): (r: nat)
    ensures r > 0
  {
    if n == 0 then 1 else 128 * Pow128(n - 1)
  }

  /** Reading gives back what was written, wherever it stands. */
  lemma {:induction false} VarintRoundTrip(v: nat, s: seq<Byte>, p: nat, bytes: nat)
    requires v < Pow128(bytes) && bytes > 0
    requires p + |Varint(v)| <= |s| && s[p..p + |Varint(v)|] == Varint(v)
    ensures ReadVarint(s, p, bytes) == Some((v, p + |Varint(v)|))
    decreases bytes
  {
    var code := Varint(v);
    assert s[p] == s[p..p + |code|][0] == code[0];
    if v >= 128 {
      var rest := Varint(v / 128);
      assert code[1..] == rest;
      assert s[p + 1..p + 1 + |rest|] == s[p..p + |code|][1..];
      VarintRoundTrip(v / 128, s, p + 1, bytes - 1);
    }
  }

  lemma {:induction false} VarintLengthBound(v: nat, bytes: nat)
    requires v < Pow128(bytes) && bytes > 0
    ensures |Varint(v)| <= bytes
  {
    if v >= 128 {
      VarintLengthBound(v / 128, bytes - 1);
    }
  }

  /** EncodeVarint32. */
  method EncodeVarint32(v: nat) returns (r: seq<Byte>)
    requires v < TWO_32
    ensures r == Varint(v)
  {
    VarintStep(v);
    VarintStep(v / 0x80);
    VarintStep(v / 0x4000);
    VarintStep(v / 0x20_0000);
    VarintStep(v / 0x1000_0000);
    hide Varint;
    if v < 0x80 {
      r := [v];
    } else if v < 0x4000 {
      r := [v % 128 + 128, v / 0x80];
    } else if v < 0x20_0000 {
      r := [v % 128 + 128, v / 0x80 % 128 + 128, v / 0x4000];
    } else if v < 0x1000_0000 {
      r := [v % 128 + 128, v / 0x80 % 128 + 128, v / 0x4000 % 128 + 128, v / 0x20_0000];
    } else {
      r := [v % 128 + 128, v / 0x80 % 128 + 128, v / 0x4000 % 128 + 128, v / 0x20_0000 % 128 + 128, v / 0x1000_0000];
    }
  }

  lemma VarintStep(v: nat)
    ensures v < 128 ==> Varint(v) == [v]
    ensures v >= 128 ==> Varint(v) == [v % 128 + 128] + Varint(v / 128)
    ensures v / 0x80 / 128 == v / 0x4000 && v / 0x4000 / 128 == v / 0x20_0000 && v / 0x20_0000 / 128 == v / 0x1000_0000
  {
  }

  /** EncodeVarint64. */
  method EncodeVarint64(v: nat) returns (r: seq<Byte>)
    requires v < TWO_64
    ensures r == Varint(v)
  {
    r := [];
    var left := v;
    while left >= 128
      invariant r + Varint(left) == Varint(v)
    {
      r := r + [left % 128 + 128];
      assert r + Varint(left / 128) == r[..|r| - 1] + ([left % 128 + 128] + Varint(left / 128));
      left := left / 128;
    }
    r := r + [left];
  }

  const MAX_VARINT_32 := 5
  const MAX_VARINT_64 := 10

  /** What is left of a number in a 32- or 64-bit word. */
  function Truncate(v: nat, wide: bool): (r: nat)
    ensures r <= v && (v < TWO_32 ==> r == v) && (wide && v < TWO_64 ==> r == v)
  {
    if wide then v % TWO_64 else v % TWO_32
  }

  /** GetVarint32PtrFallback and, when `wide`, GetVarint64Ptr: they differ only in
      the number of bytes they accept and in the word they collect the bits in. */
  method GetVarint(s: seq<Byte>, p: nat, wide: bool) returns (r: Option<(nat, nat)>)
    requires p <= |s|
    ensures match ReadVarint(s, p, MaxVarint(wide))
      case None => r == None
      case Some(v) => r == Some((Truncate(v.0, wide), v.1))
  {
    hide Truncate;
    hide Reading;
    hide ReadVarint;
    var q, i := p, 0;
    var result, unit: nat := 0, 1;
    ghost var whole: nat := 0;
    ReadingStarts(s, p, wide);
    while i < MaxVarint(wide) && q < |s|
      invariant 0 <= i <= MaxVarint(wide) && p <= q <= |s| && result == Truncate(whole, wide)
      invariant Reading(s, p, wide, q, MaxVarint(wide) - i, whole, unit)
    {
      var byte := s[q];
      var bits := Product(unit, byte % 128);
      ReadingStep(s, p, wide, q, MaxVarint(wide) - i, whole, unit);
      TruncateAdd(whole, bits, wide);
      q := q + 1;
      result := Truncate(result + bits, wide);
      whole := whole + bits;
      if byte < 128 {
        return Some((result, q));
      }
      unit := unit * 128;
      i := i + 1;
    }
    ReadingFails(s, p, wide, q, MaxVarint(wide) - i, whole, unit);
    r := None;
  }

  function Product(a: nat, b: nat): nat
  {
    a * b
  }

  /** The bytes up to `q` contribute `whole`, and the rest counts `unit`-fold. */
  ghost predicate Reading(s: seq<Byte>, p: nat, wide: bool, q: nat, left: nat, whole: nat, unit: nat)
    requires p <= q <= |s|
  {
    match ReadVarint(s, q, left)
    case None => ReadVarint(s, p, MaxVarint(wide)) == None
    case Some(v) => ReadVarint(s, p, MaxVarint(wide)) == Some((whole + Product(unit, v.0), v.1))
  }

  lemma ReadingStarts(s: seq<Byte>, p: nat, wide: bool)
    requires p <= |s|
    ensures Reading(s, p, wide, p, MaxVarint(wide), 0, 1) && Truncate(0, wide) == 0
  {
  }

  lemma ReadingStep(s: seq<Byte>, p: nat, wide: bool, q: nat, left: nat, whole: nat, unit: nat)
    requires p <= q < |s| && left > 0 && Reading(s, p, wide, q, left, whole, unit)
    ensures s[q] < 128 ==> ReadVarint(s, p, MaxVarint(wide)) == Some((whole + Product(unit, s[q] % 128), q + 1))
    ensures s[q] >= 128 ==> Reading(s, p, wide, q + 1, left - 1, whole + Product(unit, s[q] % 128), unit * 128)
  {
    hide Product;
    hide MaxVarint;
    assert s[q] < 128 ==> s[q] % 128 == s[q];
    if s[q] >= 128 {
      assert s[q] % 128 == s[q] - 128;
      var rest := ReadVarint(s, q + 1, left - 1);
      if rest.Some? {
        Distribute(whole, unit, s[q] - 128, rest.value.0);
      }
    }
  }

  lemma ReadingFails(s: seq<Byte>, p: nat, wide: bool, q: nat, left: nat, whole: nat, unit: nat)
    requires p <= q <= |s| && (left == 0 || q == |s|) && Reading(s, p, wide, q, left, whole, unit)
    ensures ReadVarint(s, p, MaxVarint(wide)) == None
  {
  }

  lemma TruncateAdd(a: nat, b: nat, wide: bool)
    ensures Truncate(Truncate(a, wide) + b, wide) == Truncate(a + b, wide)
  {
  }

  function MaxVarint(wide: bool): nat
  {
    if wide then MAX_VARINT_64 else MAX_VARINT_32
  }

  lemma Distribute(whole: nat, unit: nat, low: nat, rest: nat)
    ensures whole + Product(unit, low + 128 * rest) == whole + Product(unit, low) + Product(unit * 128, rest)
  {
    assert unit * (low + 128 * rest) == unit * low + unit * (128 * rest);
  }

  // ----- length-prefixed slices -----

  function LengthPrefixed(s: seq<Byte>): seq<Byte>
  {
    Varint(|s|) + s
  }

  /** GetLengthPrefixedSlice. */
  function ReadLengthPrefixed(s: seq<Byte>, p: nat): (r: Option<(seq<Byte>, nat)>)
    requires p <= |s|
    ensures r.Some? ==> p < r.value.1 <= |s|
  {
    match ReadVarint(s, p, MAX_VARINT_32)
    case None => None
    case Some(v) =>
      var length := v.0 % TWO_32;
      if v.1 + length > |s| then None else Some((s[v.1..v.1 + length], v.1 + length))
  }

  lemma LengthPrefixedRoundTrip(t: seq<Byte>, s: seq<Byte>, p: nat)
    requires |t| < TWO_32
    requires p + |LengthPrefixed(t)| <= |s| && s[p..p + |LengthPrefixed(t)|] == LengthPrefixed(t)
    ensures ReadLengthPrefixed(s, p) == Some((t, p + |LengthPrefixed(t)|))
  {
    var n := |Varint(|t|)|;
    assert s[p..p + n] == s[p..p + |LengthPrefixed(t)|][..n];
    Pow128Covers();
    VarintRoundTrip(|t|, s, p, MAX_VARINT_32);
    assert s[p + n..p + n + |t|] == s[p..p + |LengthPrefixed(t)|][n..];
  }

  lemma Pow128Covers()
    ensures Pow128(MAX_VARINT_32) >= TWO_32 && Pow128(MAX_VARINT_64) >= TWO_64
  {
    assert Pow128(3) == 0x20_0000;
    assert Pow128(5) == 0x8_0000_0000;
    assert Pow128(8) == 0x100_0000_0000_0000;
    assert Pow128(10) == 0x40_0000_0000_0000_0000;
  }

  // ----- reading fields one after the other -----

  ghost predicate At(s: seq<Byte>, p: nat, t: seq<Byte>)
  {
    p + |t| <= |s| && s[p..p + |t|] == t
  }

  lemma AtBoth(s: seq<Byte>, p: nat, a: seq<Byte>, b: seq<Byte>)
    requires At(s, p, a + b)
    ensures At(s, p, a) && At(s, p + |a|, b)
  {
    assert s[p..p + |a|] == s[p..p + |a + b|][..|a|];
    assert s[p + |a|..p + |a| + |b|] == s[p..p + |a + b|][|a|..];
  }

  /** GetVarint32 and, when `wide`, GetVarint64. */
  function ReadNumber(s: seq<Byte>, p: nat, wide: bool): (r: Option<(nat, nat)>)
    requires p <= |s|
    ensures r.Some? ==> p < r.value.1 <= |s|
  {
    match ReadVarint(s, p, MaxVarint(wide))
    case None => None
    case Some(v) => Some((Truncate(v.0, wide), v.1))
  }

  lemma NumberAt(v: nat, s: seq<Byte>, p: nat, wide: bool)
    requires v < (if wide then TWO_64 else TWO_32) && At(s, p, Varint(v))
    ensures ReadNumber(s, p, wide) == Some((v, p + |Varint(v)|))
  {
    Pow128Covers();
    VarintRoundTrip(v, s, p, MaxVarint(wide));
  }

  lemma SliceAt(t: seq<Byte>, s: seq<Byte>, p: nat)
    requires |t| < TWO_32 && At(s, p, LengthPrefixed(t))
    ensures ReadLengthPrefixed(s, p) == Some((t, p + |LengthPrefixed(t)|))
  {
    LengthPrefixedRoundTrip(t, s, p);
  }
}
