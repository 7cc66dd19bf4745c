/** The Bloom filter (util/bloom.cc).  The hash is any function to 32 bits. */
module Bloom {
  import opened Keys
  import opened Coding

  type Hash = h: seq<Byte> -> nat | forall s :: h(s) < TWO_32 witness s => 0

  // ----- bits of a byte -----

  function TwoTo(n: nat): (r: nat)
    ensures r > 0
  {
    if n == 0 then 1 else 2 * TwoTo(n - 1)
  }

  /** b & (1 << i) is not zero. */
  predicate HasBit(b: nat, i: nat)
  {
    if i == 0 then b % 2 == 1 else HasBit(b / 2, i - 1)
  }

  /** b | (1 << i) */
  function SetBit(b: nat, i: nat): nat
  {
    if i == 0 then (if b % 2 == 1 then b else b + 1) else 2 * SetBit(b / 2, i - 1) + b % 2
  }

  lemma {:induction false} SetBitSets(b: nat, i: nat, m: nat)
    ensures HasBit(SetBit(b, i), m) <==> m == i || HasBit(b, m)
  {
    if i > 0 && m > 0 {
      SetBitSets(b / 2, i - 1, m - 1);
      assert SetBit(b, i) / 2 == SetBit(b / 2, i - 1);
    } else if i == 0 {
      assert SetBit(b, i) / 2 == b / 2;
    }
  }

  lemma {:induction false} SetBitFits(b: nat, i: nat, n: nat)
    requires b < TwoTo(n) && i < n
    ensures SetBit(b, i) < TwoTo(n)
  {
    assert TwoTo(n) == 2 * TwoTo(n - 1);
    if i > 0 {
      assert b / 2 < TwoTo(n - 1);
      SetBitFits(b / 2, i - 1, n - 1);
    }
    hide TwoTo;
  }

  function OrBit(b: Byte, i: nat): (r: Byte)
    requires i < 8
  {
    SetBitFits(b, i, 8);
    assert TwoTo(8) == 256;
    SetBit(b, i)
  }

  /** Bit `p` of a string of bytes. */
  predicate BitAt(s: seq<Byte>, p: nat)
    requires p < 8 * |s|
  {
    HasBit(s[p / 8], p % 8)
  }

  lemma OrBitInString(s: seq<Byte>, p: nat, q: nat)
    requires p < 8 * |s| && q < 8 * |s|
    ensures BitAt(s[p / 8 := OrBit(s[p / 8], p % 8)], q) <==> q == p || BitAt(s, q)
  {
    if q / 8 == p / 8 {
      SetBitSets(s[p / 8], p % 8, q % 8);
    }
  }

  // ----- probing -----

  /** Rotate right by 17 bits. */
  function Delta(h: nat): (d: nat)
    requires h < TWO_32
    ensures d < TWO_32
  {
    h / 0x2_0000 + h % 0x2_0000 * 0x8000
  }

  /** h after `j` additions of delta, in 32 bits. */
  function Probe(h: nat, j: nat): (r: nat)
    requires h < TWO_32
    ensures r < TWO_32
  {
    if j == 0 then h else (Probe(h, j - 1) + Delta(h)) % TWO_32
  }

  const MIN_BITS := 64
  const MAX_PROBES := 30

  function FilterBytes(n: nat, bitsPerKey: nat): (b: nat)
    ensures b >= 8
  {
    var bits := n * bitsPerKey;
    ((if bits < MIN_BITS then MIN_BITS else bits) + 7) / 8
  }

  /** Some key has a probe at bit `p`. */
  ghost predicate Probed(keys: seq<seq<Byte>>, hash: Hash, k: nat, bits: nat, p: nat)
    requires bits > 0
  {
    exists i, j :: ProbedBy(keys, hash, k, bits, p, i, j)
  }

  ghost predicate ProbedBy(keys: seq<seq<Byte>>, hash: Hash, k: nat, bits: nat, p: nat, i: nat, j: nat)
    requires bits > 0
  {
    i < |keys| && j < k && Probe(hash(keys[i]), j) % bits == p
  }

  /** CreateFilter: exactly the probed bits are set, and the last byte is `k`. */
  method CreateFilter(keys: seq<seq<Byte>>, hash: Hash, bitsPerKey: nat, k: nat) returns (filter: seq<Byte>)
    requires 1 <= k <= MAX_PROBES
    ensures |filter| == FilterBytes(|keys|, bitsPerKey) + 1 && filter[|filter| - 1] == k
    ensures forall p :: 0 <= p < 8 * (|filter| - 1) ==>
      (BitAt(filter, p) <==> Probed(keys, hash, k, 8 * (|filter| - 1), p))
  {
    var bits := |keys| * bitsPerKey;
    if bits < MIN_BITS {
      bits := MIN_BITS;
    }
    var bytes := (bits + 7) / 8;
    bits := bytes * 8;
    var a: array<Byte> := new Byte[bytes](_ => 0);
    ZeroBits(a[..]);
    var i := 0;
    while i < |keys|
      invariant 0 <= i <= |keys| && fresh(a) && a.Length == bytes
      invariant SetSoFar(a[..], keys, hash, k, i, 0)
    {
      var h := hash(keys[i]);
      var delta := Delta(h);
      var j := 0;
      while j < k
        invariant 0 <= j <= k && fresh(a) && a.Length == bytes
        invariant h == Probe(hash(keys[i]), j)
        invariant SetSoFar(a[..], keys, hash, k, i, j)
      {
        var bitpos := h % bits;
        ghost var before := a[..];
        a[bitpos / 8] := OrBit(a[bitpos / 8], bitpos % 8);
        assert a[..] == before[bitpos / 8 := OrBit(before[bitpos / 8], bitpos % 8)];
        SetOne(before, a[..], keys, hash, k, i, j);
        h := (h + delta) % TWO_32;
        j := j + 1;
      }
      NextKey(a[..], keys, hash, k, i);
      i := i + 1;
    }
    AllSet(a[..], keys, hash, k);
    filter := a[..] + [k];
    forall p | 0 <= p < 8 * bytes
      ensures BitAt(filter, p) <==> BitAt(a[..], p)
    {
      assert filter[p / 8] == a[..][p / 8];
    }
  }

  /** The probe belongs to a key before `i`, or is one of the first `j` of key `i`. */
  predicate Done(x: nat, y: nat, i: nat, j: nat)
  {
    x < i || (x == i && y < j)
  }

  ghost predicate SetSoFar(s: seq<Byte>, keys: seq<seq<Byte>>, hash: Hash, k: nat, i: nat, j: nat)
  {
    |s| > 0 && forall p :: 0 <= p < 8 * |s| ==>
      (BitAt(s, p) <==> exists x, y :: Done(x, y, i, j) && ProbedBy(keys, hash, k, 8 * |s|, p, x, y))
  }

  lemma ZeroBits(s: seq<Byte>)
    requires forall i :: 0 <= i < |s| ==> s[i] == 0
    ensures forall p :: 0 <= p < 8 * |s| ==> !BitAt(s, p)
  {
    forall p | 0 <= p < 8 * |s|
      ensures !BitAt(s, p)
    {
      NoBits(p % 8);
    }
  }

  lemma {:induction false} NoBits(i: nat)
    ensures !HasBit(0, i)
  {
    if i > 0 {
      NoBits(i - 1);
    }
  }

  lemma SetOne(before: seq<Byte>, after: seq<Byte>, keys: seq<seq<Byte>>, hash: Hash, k: nat, i: nat, j: nat)
    requires SetSoFar(before, keys, hash, k, i, j) && i < |keys| && j < k
    requires var b := Probe(hash(keys[i]), j) % (8 * |before|);
      after == before[b / 8 := OrBit(before[b / 8], b % 8)]
    ensures SetSoFar(after, keys, hash, k, i, j + 1)
  {
    var bits := 8 * |before|;
    var b := Probe(hash(keys[i]), j) % bits;
    forall p | 0 <= p < bits
      ensures BitAt(after, p) <==> exists x, y :: Done(x, y, i, j + 1) && ProbedBy(keys, hash, k, bits, p, x, y)
    {
      OrBitInString(before, b, p);
      assert ProbedBy(keys, hash, k, bits, b, i, j) && Done(i, j, i, j + 1);
      if p != b && BitAt(after, p) {
        var x, y :| Done(x, y, i, j) && ProbedBy(keys, hash, k, bits, p, x, y);
        assert Done(x, y, i, j + 1);
      }
      if x, y :| Done(x, y, i, j + 1) && ProbedBy(keys, hash, k, bits, p, x, y) {
        assert p != b ==> Done(x, y, i, j);
      }
    }
  }

  lemma NextKey(s: seq<Byte>, keys: seq<seq<Byte>>, hash: Hash, k: nat, i: nat)
    requires SetSoFar(s, keys, hash, k, i, k)
    ensures SetSoFar(s, keys, hash, k, i + 1, 0)
  {
    forall p | 0 <= p < 8 * |s|
      ensures BitAt(s, p) <==> exists x, y :: Done(x, y, i + 1, 0) && ProbedBy(keys, hash, k, 8 * |s|, p, x, y)
    {
      if x, y :| Done(x, y, i, k) && ProbedBy(keys, hash, k, 8 * |s|, p, x, y) {
        assert Done(x, y, i + 1, 0);
      }
      if x, y :| Done(x, y, i + 1, 0) && ProbedBy(keys, hash, k, 8 * |s|, p, x, y) {
        assert Done(x, y, i, k);
      }
    }
  }

  lemma AllSet(s: seq<Byte>, keys: seq<seq<Byte>>, hash: Hash, k: nat)
    requires SetSoFar(s, keys, hash, k, |keys|, 0)
    ensures forall p :: 0 <= p < 8 * |s| ==> (BitAt(s, p) <==> Probed(keys, hash, k, 8 * |s|, p))
  {
    forall p | 0 <= p < 8 * |s|
      ensures BitAt(s, p) <==> Probed(keys, hash, k, 8 * |s|, p)
    {
      if x: nat, y: nat :| ProbedBy(keys, hash, k, 8 * |s|, p, x, y) {
        assert Done(x, y, |keys|, 0);
      }
    }
  }

  /** What the filter says of a key. */
  ghost predicate Matches(key: seq<Byte>, hash: Hash, filter: seq<Byte>)
  {
    |filter| >= 2 &&
    (filter[|filter| - 1] > MAX_PROBES
     || forall j :: 0 <= j < filter[|filter| - 1] ==> BitAt(filter, Probe(hash(key), j) % (8 * (|filter| - 1))))
  }

  method KeyMayMatch(key: seq<Byte>, hash: Hash, filter: seq<Byte>) returns (r: bool)
    ensures r <==> Matches(key, hash, filter)
  {
    var len := |filter|;
    if len < 2 {
      return false;
    }
    var bits := (len - 1) * 8;
    var k := filter[len - 1];
    if k > MAX_PROBES {
      return true;
    }
    var h := hash(key);
    var delta := Delta(h);
    var j: nat := 0;
    while j < k
      invariant 0 <= j <= k && h == Probe(hash(key), j)
      invariant forall y :: 0 <= y < j ==> BitAt(filter, Probe(hash(key), y) % bits)
    {
      var bitpos := h % bits;
      if !HasBit(filter[bitpos / 8], bitpos % 8) {
        return false;
      }
      h := (h + delta) % TWO_32;
      j := j + 1;
    }
    r := true;
  }

  /** No false negatives. */
  lemma CreatedMatches(keys: seq<seq<Byte>>, hash: Hash, k: nat, filter: seq<Byte>, key: seq<Byte>)
    requires |filter| >= 2 && filter[|filter| - 1] == k && key in keys
    requires forall p :: 0 <= p < 8 * (|filter| - 1) ==> (BitAt(filter, p) <==>
      Probed(keys, hash, k, 8 * (|filter| - 1), p))
    ensures Matches(key, hash, filter)
  {
    var i :| 0 <= i < |keys| && keys[i] == key;
    var bits := 8 * (|filter| - 1);
    forall j | 0 <= j < k
      ensures BitAt(filter, Probe(hash(key), j) % bits)
    {
      assert ProbedBy(keys, hash, k, bits, Probe(hash(key), j) % bits, i, j);
    }
  }
}
