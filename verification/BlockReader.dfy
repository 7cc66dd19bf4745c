/** Reading a block (table/block.cc): an iterator that parses entries in place and
    finds its way by the restart points. */
module BlockReader {
  import opened Wrappers
  import opened Keys
  import opened Coding
  import opened Blocks

  datatype Header = Header(shared: nat, nonShared: nat, valueLength: nat, start: nat)

  /** DecodeEntry: three varints, in one byte each on the fast path. */
  method DecodeEntry(data: seq<Byte>, p: nat, limit: nat) returns (h: Option<Header>)
    requires p <= limit <= |data| < TWO_32
    ensures h == HeaderAt(data[..limit], p)
  {
    var s := data[..limit];
    if limit - p < 3 {
      ShortHeader(s, p);
      return None;
    }
    var a, b, c, q: nat := s[p], s[p + 1], s[p + 2], p + 3;
    if a < 128 && b < 128 && c < 128 {
      FastPath(s, p);
    } else {
      var r := GetVarint(s, p, false);
      if r.None? {
        return None;
      }
      a, q := r.value.0, r.value.1;
      r := GetVarint(s, q, false);
      if r.None? {
        return None;
      }
      b, q := r.value.0, r.value.1;
      r := GetVarint(s, q, false);
      if r.None? {
        return None;
      }
      c, q := r.value.0, r.value.1;
    }
    if limit - q < (b + c) % TWO_32 {
      return None;
    }
    h := Some(Header(a, b, c, q));
  }

  function Word(v: nat): nat
  {
    Truncate(v, false)
  }

  /** The header at `p`, if there is one whose key and value fit behind it. */
  function HeaderAt(s: seq<Byte>, p: nat): Option<Header>
    requires p <= |s|
  {
    match ReadVarint(s, p, MAX_VARINT_32)
    case None => None
    case Some(a) =>
      match ReadVarint(s, a.1, MAX_VARINT_32)
      case None => None
      case Some(b) =>
        match ReadVarint(s, b.1, MAX_VARINT_32)
        case None => None
        case Some(c) =>
          if |s| - c.1 < (Word(b.0) + Word(c.0)) % TWO_32 then None
          else Some(Header(Word(a.0), Word(b.0), Word(c.0), c.1))
  }

  lemma ShortHeader(s: seq<Byte>, p: nat)
    requires p <= |s| < p + 3
    ensures HeaderAt(s, p) == None
  {
  }

  lemma FastPath(s: seq<Byte>, p: nat)
    requires p + 3 <= |s| && s[p] < 128 && s[p + 1] < 128 && s[p + 2] < 128
    ensures HeaderAt(s, p) == if |s| - (p + 3) < s[p + 1] as nat + s[p + 2] as nat then None
                              else Some(Header(s[p], s[p + 1], s[p + 2], p + 3))
  {
    assert ReadVarint(s, p, MAX_VARINT_32) == Some((s[p] as nat, p + 1));
    assert ReadVarint(s, p + 1, MAX_VARINT_32) == Some((s[p + 1] as nat, p + 2));
    assert ReadVarint(s, p + 2, MAX_VARINT_32) == Some((s[p + 2] as nat, p + 3));
  }

  /** An entry of a block is decoded as it was encoded. */
  lemma EntryHeader(s: seq<Byte>, p: nat, pair: Pair, shared: nat, end: nat)
    requires p <= end <= |s| < TWO_32 && shared <= |pair.key| && shared < TWO_32
    requires s[p..end] == EntryBytes(pair, shared)
    ensures var h := HeaderAt(s, p);
      && h.Some? && h.value.shared == shared && h.value.nonShared == |pair.key| - shared
      && h.value.valueLength == |pair.value|
      && h.value.start + h.value.nonShared + h.value.valueLength == end
      && s[h.value.start..h.value.start + h.value.nonShared] == pair.key[shared..]
      && s[h.value.start + h.value.nonShared..end] == pair.value
  {
    hide Varint;
    hide HeaderAt;
    var a, b, c := Varint(shared), Varint(|pair.key| - shared), Varint(|pair.value|);
    PartsOf(s, p, end, a, b, c, pair.key[shared..], pair.value);
    hide EntryBytes;
    HeaderRead(s, p, p + |a|, p + |a| + |b|, p + |a| + |b| + |c|, shared, |pair.key| - shared, |pair.value|);
  }

  lemma HeaderRead(s: seq<Byte>, p: nat, q0: nat, q1: nat, q2: nat, x: nat, y: nat, z: nat)
    requires p <= q0 <= q1 <= q2 && q2 + y + z <= |s| < TWO_32 && x < TWO_32
    requires s[p..q0] == Varint(x) && s[q0..q1] == Varint(y) && s[q1..q2] == Varint(z)
    ensures HeaderAt(s, p) == Some(Header(x, y, z, q2))
  {
    hide Varint;
    hide HeaderAt;
    ReadsWord(s, p, q0, x);
    ReadsWord(s, q0, q1, y);
    ReadsWord(s, q1, q2, z);
    HeaderFrom(s, p, (x, q0), (y, q1), (z, q2));
  }

  lemma ReadsWord(s: seq<Byte>, p: nat, q: nat, x: nat)
    requires p <= q <= |s| && x < TWO_32 && s[p..q] == Varint(x)
    ensures ReadVarint(s, p, MAX_VARINT_32) == Some((x, q))
  {
    Pow128Covers();
    hide Pow128;
    assert q == p + |Varint(x)|;
    VarintRoundTrip(x, s, p, MAX_VARINT_32);
  }

  lemma HeaderFrom(s: seq<Byte>, p: nat, a: (nat, nat), b: (nat, nat), c: (nat, nat))
    requires p <= |s| && a.1 <= |s| && b.1 <= |s| && ReadVarint(s, p, MAX_VARINT_32) == Some(a)
    requires ReadVarint(s, a.1, MAX_VARINT_32) == Some(b) && ReadVarint(s, b.1, MAX_VARINT_32) == Some(c)
    requires a.0 < TWO_32 && c.1 + b.0 + c.0 <= |s| < TWO_32
    ensures HeaderAt(s, p) == Some(Header(a.0, b.0, c.0, c.1))
  {
    hide ReadVarint;
  }

  lemma TwoParts(s: seq<Byte>, p: nat, end: nat, x: seq<Byte>, y: seq<Byte>)
    requires p <= end <= |s| && s[p..end] == x + y
    ensures p + |x| + |y| == end && s[p..p + |x|] == x && s[p + |x|..end] == y
  {
    var t := s[p..end];
    assert |t| == |x| + |y| && t[..|x|] == x && t[|x|..] == y;
    assert s[p..p + |x|] == t[..|x|];
    assert s[p + |x|..end] == t[|x|..];
  }

  lemma PartsOf(s: seq<Byte>, p: nat, end: nat, a: seq<Byte>, b: seq<Byte>, c: seq<Byte>, d: seq<Byte>, e: seq<Byte>)
    requires p <= end <= |s| && s[p..end] == a + b + c + d + e
    ensures s[p..p + |a|] == a && s[p + |a|..p + |a| + |b|] == b
    ensures s[p + |a| + |b|..p + |a| + |b| + |c|] == c
    ensures s[p + |a| + |b| + |c|..p + |a| + |b| + |c| + |d|] == d
    ensures s[p + |a| + |b| + |c| + |d|..end] == e && p + |a| + |b| + |c| + |d| + |e| == end
  {
    TwoParts(s, p, end, a + b + c + d, e);
    TwoParts(s, p, end - |e|, a + b + c, d);
    TwoParts(s, p, end - |e| - |d|, a + b, c);
    TwoParts(s, p, end - |e| - |d| - |c|, a, b);
  }

  /** A key is no longer than the block up to its end. */
  lemma {:induction false} KeyFits(l: Layout, buffer: seq<Byte>, i: nat)
    requires Encodes(l, buffer) && i < |l.pairs|
    ensures |l.pairs[i].key| <= l.offsets[i + 1]
  {
    assert EntryThere(l, buffer, i);
    if i > 0 {
      KeyFits(l, buffer, i - 1);
    }
  }

  /** Block::Iter over a well-formed block.  The value is kept as the place where it
      lies in the block. */
  class BlockIter {
    const rank: seq<Byte> -> real
    const data: seq<Byte>
    const restarts: nat
    const numRestarts: nat
    var current: nat
    var restartIndex: nat
    var key: seq<Byte>
    var valueStart: nat
    var valueLength: nat
    ghost const layout: Layout

    /** Block::Block and NewIterator: the layout is found from the end of the block. */
    constructor (rank: seq<Byte> -> real, data: seq<Byte>, ghost layout: Layout, ghost restartOffset: nat)
      requires IsBlock(layout, data, restartOffset) && Ascending(layout.pairs, rank)
      ensures Good() && StandsAt(|layout.pairs|)
      ensures this.layout == layout && this.data == data && this.rank == rank
    {
      this.rank, this.data, this.layout := rank, data, layout;
      var n := DecodeFixed32(data[|data| - 4..]);
      numRestarts := n;
      restarts := |data| - (1 + n) * 4;
      current, restartIndex := |data| - (1 + n) * 4, n;
      key, valueStart, valueLength := [], 0, 0;
    }

    ghost predicate Good()
    {
      IsBlock(layout, data, restarts) && numRestarts == |layout.points| && Ascending(layout.pairs, rank)
    }

    function NextEntryOffset(): nat
      reads this
    {
      valueStart + valueLength
    }

    ghost predicate AtEntry(i: nat)
      requires Good()
      reads this
    {
      && i < |layout.pairs| && current == layout.offsets[i] && key == layout.pairs[i].key
      && NextEntryOffset() == layout.offsets[i + 1] <= |data|
      && data[valueStart..NextEntryOffset()] == layout.pairs[i].value
      && InRestartBlock(i)
    }

    /** The restart point of the iterator is the last one before entry `i`, or `i` itself. */
    ghost predicate InRestartBlock(i: nat)
      requires Good()
      reads this`restartIndex
    {
      && restartIndex < numRestarts && layout.points[restartIndex] <= i
      && (restartIndex + 1 < numRestarts ==> i <= layout.points[restartIndex + 1])
    }

    /** On pair `i` of the block; past the last one: not valid. */
    ghost predicate StandsAt(i: nat)
      requires Good()
      reads this
    {
      if i < |layout.pairs| then AtEntry(i) else i == |layout.pairs| && current == restarts
    }

    /** ParseNextKey will find pair `i` next. */
    ghost predicate Before(i: nat)
      requires Good()
      reads this
    {
      && i <= |layout.pairs| && NextEntryOffset() == layout.offsets[i]
      && restartIndex < numRestarts && layout.points[restartIndex] <= i
      && (i < |layout.pairs| ==> layout.shared[i] <= |key| && layout.shared[i] <= |layout.pairs[i].key|
                                 && key[..layout.shared[i]] == layout.pairs[i].key[..layout.shared[i]])
    }

    lemma AfterEntry(i: nat)
      requires Good() && AtEntry(i)
      ensures Before(i + 1)
    {
      if i + 1 < |layout.pairs| {
        assert EntryThere(layout, data[..restarts], i + 1);
      }
    }

    method GetRestartPoint(index: nat) returns (offset: nat)
      requires Good() && index < numRestarts
      ensures layout.points[index] < |layout.offsets| && offset == layout.offsets[layout.points[index]]
    {
      assert RestartThere(layout, data, restarts, index);
      offset := DecodeFixed32(data[restarts + 4 * index..restarts + 4 * index + 4]);
    }

    method SeekToRestartPoint(index: nat)
      requires Good() && index < numRestarts
      modifies this
      ensures Before(layout.points[index])
    {
      var offset := GetRestartPoint(index);
      key, restartIndex := [], index;
      valueStart, valueLength := offset, 0;
    }

    method ParseNextKey(ghost i: nat) returns (ok: bool)
      requires Good() && Before(i)
      modifies this
      ensures ok <==> i < |layout.pairs|
      ensures StandsAt(i)
    {
      current := NextEntryOffset();
      OffsetsInOrder(layout, data[..restarts], i, |layout.pairs|);
      if current >= restarts {
        current, restartIndex := restarts, numRestarts;
        return false;
      }
      EntryFacts(i);
      hide HeaderAt;
      hide IsBlock;
      var h := DecodeEntry(data, current, restarts);
      // The source tests for a malformed entry here; a well-formed block has none.
      var start, value := h.value.start, h.value.start + h.value.nonShared;
      key := key[..h.value.shared] + data[start..value];
      valueStart, valueLength := value, h.value.valueLength;
      KeyRebuilt(i, key);
      AdvanceRestart(i);
      ok := true;
    }

    /** What decoding finds at entry `i`. */
    lemma EntryFacts(i: nat)
      requires Good() && i < |layout.pairs|
      ensures layout.offsets[i] <= restarts <= |data| && HeaderAt(data[..restarts], layout.offsets[i]).Some?
      ensures var h, p := HeaderAt(data[..restarts], layout.offsets[i]).value, layout.pairs[i];
        && h.shared == layout.shared[i] <= |p.key|
        && h.start + h.nonShared + h.valueLength == layout.offsets[i + 1] <= |data|
        && data[h.start..h.start + h.nonShared] == p.key[h.shared..]
        && data[h.start + h.nonShared..layout.offsets[i + 1]] == p.value
    {
      var s := data[..restarts];
      assert EntryThere(layout, s, i);
      KeyFits(layout, s, i);
      OffsetsInOrder(layout, s, i + 1, |layout.pairs|);
      EntryHeader(s, layout.offsets[i], layout.pairs[i], layout.shared[i], layout.offsets[i + 1]);
      hide HeaderAt;
      var h := HeaderAt(s, layout.offsets[i]).value;
      assert data[h.start..h.start + h.nonShared] == s[h.start..h.start + h.nonShared];
      assert data[h.start + h.nonShared..layout.offsets[i + 1]] == s[h.start + h.nonShared..layout.offsets[i + 1]];
    }

    lemma KeyRebuilt(i: nat, k: seq<Byte>)
      requires Good() && i < |layout.pairs| && layout.shared[i] <= |layout.pairs[i].key|
      requires k == layout.pairs[i].key[..layout.shared[i]] + layout.pairs[i].key[layout.shared[i]..]
      ensures k == layout.pairs[i].key
    {
    }

    method AdvanceRestart(ghost i: nat)
      requires Good() && restartIndex < numRestarts && layout.points[restartIndex] <= i
      requires i < |layout.pairs| && current == layout.offsets[i]
      modifies this`restartIndex
      ensures InRestartBlock(i)
    {
      while restartIndex + 1 < numRestarts
        invariant restartIndex < numRestarts && layout.points[restartIndex] <= i
      {
        var offset := GetRestartPoint(restartIndex + 1);
        OffsetOrder(layout.points[restartIndex + 1], i);
        if offset >= current {
          break;
        }
        restartIndex := restartIndex + 1;
      }
    }

    method SeekToFirst()
      requires Good()
      modifies this
      ensures StandsAt(0)
    {
      SeekToRestartPoint(0);
      var ok := ParseNextKey(0);
    }

    method Next(ghost i: nat)
      requires Good() && StandsAt(i) && current < restarts
      modifies this
      ensures StandsAt(i + 1)
    {
      AfterEntry(i);
      var ok := ParseNextKey(i + 1);
    }

    method SeekToLast()
      requires Good()
      modifies this
      ensures StandsAt(if layout.pairs == [] then 0 else |layout.pairs| - 1)
    {
      SeekToRestartPoint(numRestarts - 1);
      ghost var i := layout.points[numRestarts - 1];
      var ok := ParseNextKey(i);
      while ok && NextEntryOffset() < restarts
        invariant ok <==> i < |layout.pairs|
        invariant StandsAt(i) && (layout.pairs != [] ==> ok)
        decreases |layout.pairs| - i
      {
        AfterEntry(i);
        assert i + 1 < |layout.pairs|;
        i := i + 1;
        ok := ParseNextKey(i);
      }
      if ok {
        OffsetsInOrder(layout, data[..restarts], i + 1, |layout.pairs|);
        assert i == |layout.pairs| - 1;
      }
    }

    /** Back to the nearest restart point before the entry, then forward again. */
    method Prev(ghost i: nat)
      requires Good() && StandsAt(i) && current < restarts
      modifies this
      ensures StandsAt(if i == 0 then |layout.pairs| else i - 1)
    {
      hide IsBlock;
      EndsAt(i);
      var original := current;
      var found := RestartBefore(original, i);
      if !found {
        current, restartIndex := restarts, numRestarts;
        return;
      }
      ghost var j := layout.points[restartIndex];
      SeekToRestartPoint(restartIndex);
      var ok := ParseNextKey(j);
      while ok && NextEntryOffset() < original
        invariant j < i < |layout.offsets| && original == layout.offsets[i] && ok && StandsAt(j)
        decreases i - j
      {
        AfterEntry(j);
        OffsetOrder(j + 1, i);
        j := j + 1;
        ok := ParseNextKey(j);
      }
      OffsetOrder(j + 1, i);
    }

    /** The last restart point before entry `i`, from the one it is at on; none before the first entry. */
    method RestartBefore(original: nat, ghost i: nat) returns (found: bool)
      requires Good() && i < |layout.pairs| && original == layout.offsets[i] && InRestartBlock(i)
      modifies this`restartIndex
      ensures found <==> i > 0
      ensures found ==> restartIndex < numRestarts && layout.points[restartIndex] < i
    {
      FirstPoint();
      var offset := GetRestartPoint(restartIndex);
      OffsetOrder(layout.points[restartIndex], i);
      while offset >= original
        invariant restartIndex < numRestarts && layout.points[restartIndex] <= i
        invariant offset == layout.offsets[layout.points[restartIndex]]
        invariant offset < original <==> layout.points[restartIndex] < i
        decreases restartIndex
      {
        if restartIndex == 0 {
          return false;
        }
        restartIndex := restartIndex - 1;
        PointsInOrder(restartIndex);
        offset := GetRestartPoint(restartIndex);
        OffsetOrder(layout.points[restartIndex], i);
      }
      found := true;
    }

    lemma FirstPoint()
      requires Good()
      ensures numRestarts > 0 && layout.points[0] == 0
    {
    }

    lemma PointsInOrder(n: nat)
      requires Good() && n + 1 < numRestarts
      ensures layout.points[n] < layout.points[n + 1]
    {
    }

    lemma EndsAt(i: nat)
      requires Good() && StandsAt(i)
      ensures |layout.offsets| == |layout.pairs| + 1 && (current < restarts <==> i < |layout.pairs|)
    {
      if i < |layout.pairs| {
        OffsetOrder(i, |layout.pairs|);
      }
    }

    lemma OffsetOrder(i: nat, j: nat)
      requires Good() && i <= |layout.pairs| && j <= |layout.pairs|
      ensures layout.offsets[i] < layout.offsets[j] <==> i < j
    {
      if i <= j {
        OffsetsInOrder(layout, data[..restarts], i, j);
      } else {
        OffsetsInOrder(layout, data[..restarts], j, i);
      }
    }

    /** The first pair whose key is not before the target. */
    ghost predicate FirstAtOrAfterKey(target: seq<Byte>, v: nat)
    {
      && v <= |layout.pairs| && (forall i :: 0 <= i < v ==> rank(layout.pairs[i].key) < rank(target))
      && (forall i :: v <= i < |layout.pairs| ==> rank(layout.pairs[i].key) >= rank(target))
    }

    method Seek(target: seq<Byte>) returns (ghost v: nat)
      requires Good()
      modifies this
      ensures FirstAtOrAfterKey(target, v) && StandsAt(v)
    {
      var left := FindRestart(target);
      SeekToRestartPoint(left);
      v := layout.points[left];
      AllBefore(v, target);
      while true
        invariant Before(v) && forall i :: 0 <= i < v ==> rank(layout.pairs[i].key) < rank(target)
        decreases |layout.pairs| - v
      {
        var ok := ParseNextKey(v);
        if !ok {
          return;
        }
        if rank(key) >= rank(target) {
          AllAfter(v, target);
          return;
        }
        AfterEntry(v);
        v := v + 1;
      }
    }

    /** The last restart point whose key is before the target, or the first one. */
    method FindRestart(target: seq<Byte>) returns (left: nat)
      requires Good()
      ensures left < numRestarts
      ensures left > 0 ==>
        layout.points[left] < |layout.pairs| && rank(layout.pairs[layout.points[left]].key) < rank(target)
      ensures forall j :: left < j < numRestarts && layout.points[j] < |layout.pairs| ==>
        rank(layout.pairs[layout.points[j]].key) >= rank(target)
    {
      left := 0;
      var right := numRestarts - 1;
      while left < right
        invariant 0 <= left <= right < numRestarts
        invariant left > 0 ==>
          layout.points[left] < |layout.pairs| && rank(layout.pairs[layout.points[left]].key) < rank(target)
        invariant forall j :: right < j < numRestarts && layout.points[j] < |layout.pairs| ==>
          rank(layout.pairs[layout.points[j]].key) >= rank(target)
      {
        var mid := (left + right + 1) / 2;
        var midKey := RestartKey(mid);
        if rank(midKey) < rank(target) {
          left := mid;
        } else {
          PointsAscend(mid, target);
          right := mid - 1;
        }
      }
    }

    /** The whole key of the entry at a restart point. */
    method RestartKey(index: nat) returns (k: seq<Byte>)
      requires Good() && 0 < index < numRestarts
      ensures layout.points[index] < |layout.pairs| && k == layout.pairs[layout.points[index]].key
    {
      var offset := GetRestartPoint(index);
      EntryFacts(layout.points[index]);
      var h := DecodeEntry(data, offset, restarts);
      k := data[h.value.start..h.value.start + h.value.nonShared];
    }

    lemma AllBefore(v: nat, target: seq<Byte>)
      requires Good() && v <= |layout.pairs|
      requires v == 0 || (v < |layout.pairs| && rank(layout.pairs[v].key) < rank(target))
      ensures forall i :: 0 <= i < v ==> rank(layout.pairs[i].key) < rank(target)
    {
    }

    lemma AllAfter(v: nat, target: seq<Byte>)
      requires Good() && v < |layout.pairs| && rank(layout.pairs[v].key) >= rank(target)
      ensures forall i :: v <= i < |layout.pairs| ==> rank(layout.pairs[i].key) >= rank(target)
    {
    }

    lemma PointsAscend(mid: nat, target: seq<Byte>)
      requires Good() && mid < numRestarts && layout.points[mid] < |layout.pairs|
      requires rank(layout.pairs[layout.points[mid]].key) >= rank(target)
      ensures forall j :: mid <= j < numRestarts && layout.points[j] < |layout.pairs| ==>
        rank(layout.pairs[layout.points[j]].key) >= rank(target)
    {
      AllAfter(layout.points[mid], target);
    }
  }

  /** Reading a block from the front gives back exactly what was added. */
  method ReadBlock(it: BlockIter) returns (pairs: seq<Pair>)
    requires it.Good()
    modifies it
    ensures pairs == it.layout.pairs
  {
    it.SeekToFirst();
    pairs := [];
    it.EndsAt(0);
    while it.current < it.restarts
      invariant |pairs| <= |it.layout.pairs| && pairs == it.layout.pairs[..|pairs|] && it.StandsAt(|pairs|)
      invariant it.current < it.restarts <==> |pairs| < |it.layout.pairs|
      decreases |it.layout.pairs| - |pairs|
    {
      ghost var i := |pairs|;
      var p := Pair(it.key, it.data[it.valueStart..it.NextEntryOffset()]);
      pairs := pairs + [p];
      it.Next(i);
      it.EndsAt(i + 1);
    }
  }
}
