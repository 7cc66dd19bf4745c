/** Blocks of a table file (table/block_builder.cc): keys share prefixes with the
    key before them, except at restart points, whose offsets end the block. */
module Blocks {
  import opened Keys
  import opened Coding

  datatype Pair = Pair(key: seq<Byte>, value: seq<Byte>)

  /** Where everything is in a block: how much each key shares, where each entry
      starts (and the last one ends), and which entries are restart points. */
  datatype Layout = Layout(pairs: seq<Pair>, shared: seq<nat>, offsets: seq<nat>, points: seq<nat>)

  function EntryBytes(p: Pair, shared: nat): (r: seq<Byte>)
    requires shared <= |p.key|
    ensures |r| >= 3
  {
    Varint(shared) + Varint(|p.key| - shared) + Varint(|p.value|) + p.key[shared..] + p.value
  }

  /** What the key of entry `i` may share is a prefix of the key before it. */
  ghost predicate SharesPrefix(pairs: seq<Pair>, i: nat, shared: nat)
    requires i < |pairs|
  {
    && shared <= |pairs[i].key|
    && if i == 0 then shared == 0
       else shared <= |pairs[i - 1].key| && pairs[i].key[..shared] == pairs[i - 1].key[..shared]
  }

  ghost predicate EntryThere(l: Layout, buffer: seq<Byte>, i: nat)
    requires i < |l.pairs| && |l.shared| == |l.pairs| && |l.offsets| == |l.pairs| + 1
  {
    && SharesPrefix(l.pairs, i, l.shared[i])
    && l.offsets[i] <= l.offsets[i + 1] <= |buffer|
    && buffer[l.offsets[i]..l.offsets[i + 1]] == EntryBytes(l.pairs[i], l.shared[i])
  }

  /** The buffer holds the pairs of the layout, one after the other. */
  ghost predicate Encodes(l: Layout, buffer: seq<Byte>)
  {
    && |l.shared| == |l.pairs| && |l.offsets| == |l.pairs| + 1
    && l.offsets[0] == 0 && l.offsets[|l.pairs|] == |buffer|
    && forall i :: 0 <= i < |l.pairs| ==> EntryThere(l, buffer, i)
  }

  /** Restart points are entries with whole keys, in order, the first one first. */
  ghost predicate PointsOk(l: Layout)
  {
    && |l.shared| == |l.pairs| && l.points != [] && l.points[0] == 0
    && (forall j :: 0 <= j < |l.points| ==> l.points[j] < |l.pairs| || (l.points[j] == 0 && l.pairs == []))
    && (forall j :: 0 <= j < |l.points| ==> l.points[j] < |l.pairs| ==> l.shared[l.points[j]] == 0)
    && (forall i, j :: 0 <= i < j < |l.points| ==> l.points[i] < l.points[j])
  }

  /** Every `interval`-th entry is a restart point, from the first on; `counter` entries follow the last. */
  ghost predicate PointsEvery(points: seq<nat>, interval: nat, n: nat, counter: nat)
  {
    && points != [] && points[0] == 0 && points[|points| - 1] + counter == n && counter <= interval
    && (counter == 0 ==> n == 0)
    && forall j :: 0 <= j < |points| - 1 ==> points[j + 1] == points[j] + interval
  }

  /** `n` is the length of the longest common prefix. */
  ghost predicate LongestShared(a: seq<Byte>, b: seq<Byte>, n: nat)
  {
    n <= |a| && n <= |b| && a[..n] == b[..n] && (n < |a| && n < |b| ==> a[n] != b[n])
  }

  /** Keys share all they can with the key before, except at the restart points. */
  ghost predicate SharesAll(l: Layout)
  {
    && |l.shared| == |l.pairs|
    && forall i :: 0 < i < |l.pairs| && i !in l.points ==>
      LongestShared(l.pairs[i - 1].key, l.pairs[i].key, l.shared[i])
  }

  /** The layout BlockBuilder gives to its pairs. */
  ghost predicate Regular(l: Layout, interval: nat)
  {
    SharesAll(l) && exists counter :: PointsEvery(l.points, interval, |l.pairs|, counter)
  }

  lemma OneLongest(a: seq<Byte>, b: seq<Byte>, m: nat, n: nat)
    requires LongestShared(a, b, m) && LongestShared(a, b, n)
    ensures m == n
  {
    SamePrefix(a, b, m);
    SamePrefix(a, b, n);
  }

  lemma {:induction false} SamePoints(a: seq<nat>, b: seq<nat>, interval: nat, n: nat, c: nat, d: nat, k: nat)
    requires PointsEvery(a, interval, n, c) && PointsEvery(b, interval, n, d) && k < |a| && k < |b|
    ensures a[k] == b[k]
  {
    if k > 0 {
      SamePoints(a, b, interval, n, c, d, k - 1);
      assert a[k - 1 + 1] == a[k - 1] + interval && b[k - 1 + 1] == b[k - 1] + interval;
    }
  }

  lemma {:induction false} PointsAdvance(a: seq<nat>, interval: nat, n: nat, c: nat, k: nat)
    requires PointsEvery(a, interval, n, c) && k < |a| - 1
    ensures a[k] + interval <= a[|a| - 1]
    decreases |a| - k
  {
    assert a[k + 1] == a[k] + interval;
    if k + 1 < |a| - 1 {
      PointsAdvance(a, interval, n, c, k + 1);
    }
  }

  lemma NoMorePoints(a: seq<nat>, b: seq<nat>, interval: nat, n: nat, c: nat, d: nat)
    requires PointsEvery(a, interval, n, c) && PointsEvery(b, interval, n, d) && interval >= 1
    ensures |a| >= |b|
  {
    if |a| < |b| {
      SamePoints(a, b, interval, n, c, d, |a| - 1);
      PointsAdvance(b, interval, n, d, |a| - 1);
      assert false;
    }
  }

  /** There is one layout for a list of pairs: what each key shares and where the restart points are. */
  lemma LayoutOnce(l: Layout, m: Layout, interval: nat, buffer: seq<Byte>, buffer2: seq<Byte>)
    requires Regular(l, interval) && Regular(m, interval) && l.pairs == m.pairs && interval >= 1
    requires Encodes(l, buffer) && Encodes(m, buffer2) && PointsOk(l) && PointsOk(m)
    ensures l.points == m.points && l.shared == m.shared
  {
    hide EntryBytes;
    var c :| PointsEvery(l.points, interval, |l.pairs|, c);
    var d :| PointsEvery(m.points, interval, |m.pairs|, d);
    NoMorePoints(l.points, m.points, interval, |l.pairs|, c, d);
    NoMorePoints(m.points, l.points, interval, |l.pairs|, d, c);
    forall k | 0 <= k < |l.points|
      ensures l.points[k] == m.points[k]
    {
      SamePoints(l.points, m.points, interval, |l.pairs|, c, d, k);
    }
    assert l.points == m.points;
    forall i | 0 <= i < |l.pairs|
      ensures l.shared[i] == m.shared[i]
    {
      SameShared(l, m, i);
    }
  }

  lemma SameShared(l: Layout, m: Layout, i: nat)
    requires SharesAll(l) && SharesAll(m) && l.pairs == m.pairs && l.points == m.points
    requires PointsOk(l) && PointsOk(m) && i < |l.pairs|
    ensures l.shared[i] == m.shared[i]
  {
    if i in l.points {
      var j :| 0 <= j < |l.points| && l.points[j] == i;
    } else {
      assert l.points[0] == 0;
      OneLongest(l.pairs[i - 1].key, l.pairs[i].key, l.shared[i], m.shared[i]);
    }
  }

  ghost predicate RestartsMatch(l: Layout, restarts: seq<nat>)
  {
    && |restarts| == |l.points| && |l.offsets| == |l.pairs| + 1
    && forall j :: 0 <= j < |restarts| ==> l.points[j] < |l.offsets| && restarts[j] == l.offsets[l.points[j]]
  }

  ghost predicate Ascending(pairs: seq<Pair>, rank: seq<Byte> -> real)
  {
    forall i, j :: 0 <= i < j < |pairs| ==> rank(pairs[i].key) < rank(pairs[j].key)
  }

  lemma OffsetsGrow(l: Layout, buffer: seq<Byte>, i: nat)
    requires Encodes(l, buffer) && i < |l.pairs|
    ensures l.shared[i] <= |l.pairs[i].key|
    ensures l.offsets[i] + |EntryBytes(l.pairs[i], l.shared[i])| == l.offsets[i + 1]
  {
    assert EntryThere(l, buffer, i);
  }

  lemma {:induction false} OffsetsInOrder(l: Layout, buffer: seq<Byte>, i: nat, j: nat)
    requires Encodes(l, buffer) && i <= j <= |l.pairs|
    ensures l.offsets[i] <= l.offsets[j] && (i < j ==> l.offsets[i] < l.offsets[j])
    ensures l.offsets[j] <= |buffer|
    decreases |l.pairs| - i
  {
    if i < j {
      OffsetsGrow(l, buffer, i);
      OffsetsInOrder(l, buffer, i + 1, j);
    } else if j < |l.pairs| {
      OffsetsGrow(l, buffer, j);
      OffsetsInOrder(l, buffer, j + 1, j + 1);
    }
  }

  /** A finished block: the entries, the restart offsets, their number. */
  ghost predicate IsBlock(l: Layout, data: seq<Byte>, restartOffset: nat)
  {
    && PointsOk(l) && 4 * (|l.points| + 1) + restartOffset == |data| < TWO_32
    && Encodes(l, data[..restartOffset])
    && (forall j :: 0 <= j < |l.points| ==> RestartThere(l, data, restartOffset, j))
    && data[|data| - 4..] == EncodeFixed32(|l.points|)
  }

  ghost predicate RestartThere(l: Layout, data: seq<Byte>, restartOffset: nat, j: nat)
    requires j < |l.points| && restartOffset + 4 * j + 4 <= |data|
  {
    && l.points[j] < |l.offsets| && l.offsets[l.points[j]] < TWO_32
    && data[restartOffset + 4 * j..restartOffset + 4 * j + 4] == EncodeFixed32(l.offsets[l.points[j]])
  }

  class BlockBuilder {
    const interval: nat
    const rank: seq<Byte> -> real
    var buffer: seq<Byte>
    var restarts: seq<nat>
    var counter: nat
    var lastKey: seq<Byte>
    var finished: bool
    ghost var layout: Layout

    constructor (interval: nat, rank: seq<Byte> -> real)
      requires interval >= 1
      ensures Valid() && layout.pairs == [] && !finished && this.interval == interval && this.rank == rank
    {
      this.interval, this.rank := interval, rank;
      buffer, restarts, counter, lastKey, finished := [], [0], 0, [], false;
      layout := Layout([], [], [0], [0]);
    }

    ghost predicate Valid()
      reads this
    {
      && interval >= 1 && LaidOut(layout, restarts, interval, counter, rank)
      && (!finished ==> Encodes(layout, buffer)) && lastKey == LastKey(layout.pairs)
    }

    /** Add a pair behind all others. */
    method Add(key: seq<Byte>, value: seq<Byte>)
      requires Valid() && !finished
      requires layout.pairs != [] ==> rank(lastKey) < rank(key)
      modifies this
      ensures Valid() && !finished && layout.pairs == old(layout.pairs) + [Pair(key, value)]
      ensures Regular(layout, interval)
    {
      ghost var p := Pair(key, value);
      hide Encodes;
      hide LaidOut;
      hide EntryBytes;
      var shared, restart := 0, counter >= interval;
      if !restart {
        shared := SharedLength(lastKey, key);
      }
      AddKeeps(layout, buffer, restarts, rank, p, shared, restart, interval, counter);
      if restart {
        restarts := restarts + [|buffer|];
        counter := 0;
      }
      AppendEntry(key, value, shared);
      layout := Extended(layout, |buffer|, p, shared, restart);
      counter := counter + 1;
    }

    /** The lengths, the part of the key that is new, and the value. */
    method AppendEntry(key: seq<Byte>, value: seq<Byte>, shared: nat)
      requires shared <= |lastKey| && shared <= |key| && lastKey[..shared] == key[..shared]
      modifies this`buffer, this`lastKey
      ensures buffer == old(buffer) + EntryBytes(Pair(key, value), shared) && lastKey == key
    {
      ghost var was := buffer;
      var header := EncodeHeader(shared, |key| - shared, |value|);
      buffer := buffer + header;
      buffer := buffer + key[shared..];
      buffer := buffer + value;
      EntryJoined(was, header, Pair(key, value), shared);
      lastKey := lastKey[..shared] + key[shared..];
      assert lastKey == key[..shared] + key[shared..] == key;
    }

    static lemma EntryJoined(was: seq<Byte>, header: seq<Byte>, p: Pair, shared: nat)
      requires shared <= |p.key| && header == Varint(shared) + Varint(|p.key| - shared) + Varint(|p.value|)
      ensures was + header + p.key[shared..] + p.value == was + EntryBytes(p, shared)
    {
      hide Varint;
    }

    static method EncodeHeader(shared: nat, nonShared: nat, valueLength: nat) returns (r: seq<Byte>)
      ensures r == Varint(shared) + Varint(nonShared) + Varint(valueLength)
    {
      r := Varint(shared);
      r := r + Varint(nonShared);
      r := r + Varint(valueLength);
    }

    static method SharedLength(a: seq<Byte>, b: seq<Byte>) returns (n: nat)
      ensures LongestShared(a, b, n)
    {
      var limit := if |a| < |b| then |a| else |b|;
      n := 0;
      while n < limit && a[n] == b[n]
        invariant n <= limit && a[..n] == b[..n]
      {
        n := n + 1;
      }
    }

    /** Append the restart array and its length. */
    method Finish() returns (data: seq<Byte>)
      requires Valid() && !finished && |buffer| + 4 * (|restarts| + 1) < TWO_32
      modifies this
      ensures finished && layout == old(layout) && IsBlock(layout, data, |old(buffer)|) && Ascending(layout.pairs, rank)
      ensures Regular(layout, interval)
    {
      ghost var entries := buffer;
      FinishFacts(layout, restarts, interval, counter, rank);
      hide LaidOut;
      RestartsFit(layout, entries, restarts);
      var i := 0;
      while i < |restarts|
        invariant 0 <= i <= |restarts| && restarts == old(restarts) && layout == old(layout)
        invariant AllFit(restarts) && AllFit(restarts[..i])
        invariant buffer == entries + FixedArray(restarts[..i])
      {
        assert restarts[..i + 1][..i] == restarts[..i];
        buffer := buffer + EncodeFixed32(restarts[i]);
        i := i + 1;
      }
      assert restarts[..i] == restarts;
      buffer := buffer + EncodeFixed32(|restarts|);
      finished := true;
      data := buffer;
      FinishedBlock(layout, entries, restarts, data);
    }
  }

  ghost function Extended(l: Layout, end: nat, p: Pair, shared: nat, restart: bool): Layout
  {
    Layout(l.pairs + [p], l.shared + [shared], l.offsets + [end], if restart then l.points + [|l.pairs|] else l.points)
  }

  function LastKey(pairs: seq<Pair>): seq<Byte>
  {
    if pairs == [] then [] else pairs[|pairs| - 1].key
  }

  /** What the builder knows of its layout: ordered keys, the restart points and what is shared. */
  ghost predicate LaidOut(l: Layout, restarts: seq<nat>, interval: nat, counter: nat, rank: seq<Byte> -> real)
  {
    && Ascending(l.pairs, rank) && PointsOk(l) && RestartsMatch(l, restarts)
    && SharesAll(l) && PointsEvery(l.points, interval, |l.pairs|, counter)
  }

  lemma AddKeeps(l: Layout, buffer: seq<Byte>, restarts: seq<nat>, rank: seq<Byte> -> real, p: Pair, shared: nat,
                 restart: bool, interval: nat, counter: nat)
    requires Encodes(l, buffer) && LaidOut(l, restarts, interval, counter, rank) && interval >= 1
    requires l.pairs != [] ==> rank(LastKey(l.pairs)) < rank(p.key)
    requires restart <==> counter >= interval
    requires if restart then shared == 0 else LongestShared(LastKey(l.pairs), p.key, shared)
    ensures shared <= |LastKey(l.pairs)| && shared <= |p.key| && LastKey(l.pairs)[..shared] == p.key[..shared]
    ensures var b := buffer + EntryBytes(p, shared);
      var m := Extended(l, |b|, p, shared, restart);
      && Encodes(m, b) && Regular(m, interval)
      && LaidOut(m, if restart then restarts + [|buffer|] else restarts, interval, if restart then 1 else counter + 1,
                 rank)
  {
    hide Encodes;
    hide PointsOk;
    hide RestartsMatch;
    hide EntryBytes;
    assert l.pairs == [] ==> !restart;
    AddEntry(l, buffer, p, shared, restart);
    RestartsExtended(l, buffer, restarts, |buffer + EntryBytes(p, shared)|, p, shared, restart);
    LastAscends(l.pairs, p, rank);
    StaysRegular(l, |buffer + EntryBytes(p, shared)|, p, shared, restart, interval, counter);
    hide Ascending;
    hide SharesAll;
    hide PointsEvery;
  }

  lemma StaysRegular(l: Layout, end: nat, p: Pair, shared: nat, restart: bool, interval: nat, counter: nat)
    requires SharesAll(l) && PointsEvery(l.points, interval, |l.pairs|, counter) && interval >= 1
    requires restart <==> counter >= interval
    requires !restart ==> LongestShared(LastKey(l.pairs), p.key, shared)
    ensures var m := Extended(l, end, p, shared, restart);
      SharesAll(m) && PointsEvery(m.points, interval, |m.pairs|, if restart then 1 else counter + 1)
  {
    hide LongestShared;
    var m := Extended(l, end, p, shared, restart);
    forall i | 0 < i < |m.pairs| && i !in m.points
      ensures LongestShared(m.pairs[i - 1].key, m.pairs[i].key, m.shared[i])
    {
      assert restart ==> m.points == l.points + [|l.pairs|];
    }
  }

  lemma LastAscends(pairs: seq<Pair>, p: Pair, rank: seq<Byte> -> real)
    requires Ascending(pairs, rank) && (pairs != [] ==> rank(pairs[|pairs| - 1].key) < rank(p.key))
    ensures Ascending(pairs + [p], rank)
  {
  }

  lemma RestartsExtended(l: Layout, buffer: seq<Byte>, restarts: seq<nat>, end: nat, p: Pair, shared: nat,
                         restart: bool)
    requires Encodes(l, buffer) && RestartsMatch(l, restarts)
    ensures RestartsMatch(Extended(l, end, p, shared, restart), if restart then restarts + [|buffer|] else restarts)
  {
  }

  lemma AddEntry(l: Layout, buffer: seq<Byte>, p: Pair, shared: nat, restart: bool)
    requires Encodes(l, buffer) && PointsOk(l) && shared <= |p.key|
    requires if l.pairs == [] then shared == 0 && !restart
             else var k := l.pairs[|l.pairs| - 1].key; shared <= |k| && p.key[..shared] == k[..shared]
    requires restart ==> shared == 0
    ensures var b := buffer + EntryBytes(p, shared);
      Encodes(Extended(l, |b|, p, shared, restart), b) && PointsOk(Extended(l, |b|, p, shared, restart))
  {
    var b := buffer + EntryBytes(p, shared);
    var m := Extended(l, |b|, p, shared, restart);
    forall i | 0 <= i < |m.pairs|
      ensures EntryThere(m, b, i)
    {
      if i < |l.pairs| {
        assert EntryThere(l, buffer, i);
        assert b[l.offsets[i]..l.offsets[i + 1]] == buffer[l.offsets[i]..l.offsets[i + 1]];
      } else {
        assert b[|buffer|..|b|] == EntryBytes(p, shared);
      }
    }
  }

  lemma FinishFacts(l: Layout, restarts: seq<nat>, interval: nat, counter: nat, rank: seq<Byte> -> real)
    requires LaidOut(l, restarts, interval, counter, rank)
    ensures PointsOk(l) && RestartsMatch(l, restarts) && Ascending(l.pairs, rank) && Regular(l, interval)
  {
  }

  lemma RestartsFit(l: Layout, buffer: seq<Byte>, restarts: seq<nat>)
    requires Encodes(l, buffer) && RestartsMatch(l, restarts) && |buffer| < TWO_32
    ensures AllFit(restarts)
  {
    forall j | 0 <= j < |restarts|
      ensures restarts[j] < TWO_32
    {
      OffsetsInOrder(l, buffer, l.points[j], |l.pairs|);
    }
  }

  lemma FinishedBlock(l: Layout, buffer: seq<Byte>, restarts: seq<nat>, data: seq<Byte>)
    requires Encodes(l, buffer) && PointsOk(l) && RestartsMatch(l, restarts)
    requires |buffer| + 4 * (|restarts| + 1) < TWO_32 && AllFit(restarts)
    requires data == buffer + FixedArray(restarts) + EncodeFixed32(|restarts|)
    ensures IsBlock(l, data, |buffer|)
  {
    hide EncodeFixed32;
    hide Encodes;
    hide FixedArray;
    assert data[..|buffer|] == buffer;
    forall j | 0 <= j < |l.points|
      ensures RestartThere(l, data, |buffer|, j)
    {
      FixedArrayAt(restarts, j);
      assert restarts[j] in restarts;
      assert data[|buffer| + 4 * j..|buffer| + 4 * j + 4] == FixedArray(restarts)[4 * j..4 * j + 4];
    }
  }
}
