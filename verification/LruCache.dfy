/** The LRU cache (util/cache.cc): entries on a hash chain and on a circular list,
    counted references, one deleter call per entry.

    Entries live in a heap of nodes; pointers are node numbers. */
module LruCache {
  import opened Wrappers
  import opened Keys

  datatype Handle = Handle(key: seq<Byte>, hash: nat, value: nat, charge: nat, refs: nat,
                           nextHash: Option<nat>, next: nat, prev: nat)

  type Nodes = map<nat, Handle>

  /** The dummy head of the list: its next is the oldest entry, its prev the newest. */
  const LRU: nat := 0

  ghost predicate Distinct(s: seq<nat>)
  {
    forall i, j :: 0 <= i < j < |s| ==> s[i] != s[j]
  }

  function Cut(s: seq<nat>, i: nat): (r: seq<nat>)
    requires i < |s|
    ensures |r| == |s| - 1
    ensures forall j :: 0 <= j < i ==> r[j] == s[j]
    ensures forall j :: i <= j < |r| ==> r[j] == s[j + 1]
  {
    s[..i] + s[i + 1..]
  }

  lemma CutMembers(s: seq<nat>, i: nat)
    requires Distinct(s) && i < |s|
    ensures Distinct(Cut(s, i)) && forall n :: n in Cut(s, i) <==> n in s && n != s[i]
  {
    forall n | n in s && n != s[i]
      ensures n in Cut(s, i)
    {
      var j :| 0 <= j < |s| && s[j] == n;
      assert Cut(s, i)[if j < i then j else j - 1] == n;
    }
  }

  // ----- the circular list -----

  function Around(lru: seq<nat>, i: nat): nat
    requires i <= |lru| + 1
  {
    if i == 0 || i == |lru| + 1 then LRU else lru[i - 1]
  }

  ghost predicate RingLink(nodes: Nodes, lru: seq<nat>, i: nat)
    requires i <= |lru|
  {
    var a, b := Around(lru, i), Around(lru, i + 1);
    a in nodes && b in nodes && nodes[a].next == b && nodes[b].prev == a
  }

  /** The list visits `lru` and comes back to the head, both ways round. */
  ghost predicate Ring(nodes: Nodes, lru: seq<nat>)
  {
    Distinct(lru) && LRU !in lru && forall i :: 0 <= i <= |lru| ==> RingLink(nodes, lru, i)
  }

  /** Only list links have changed. */
  ghost predicate SameData(nodes: Nodes, after: Nodes)
  {
    nodes.Keys == after.Keys && forall n :: n in nodes ==>
      after[n] == nodes[n].(next := after[n].next, prev := after[n].prev)
  }

  /** LRU_Remove. */
  function Unlinked(nodes: Nodes, e: nat): (r: Nodes)
    requires e in nodes && nodes[e].next in nodes && nodes[e].prev in nodes
    ensures SameData(nodes, r)
  {
    var n, p := nodes[e].next, nodes[e].prev;
    var first := nodes[n := nodes[n].(prev := p)];
    first[p := first[p].(next := n)]
  }

  /** LRU_Append. */
  function Appended(nodes: Nodes, e: nat): (r: Nodes)
    requires e in nodes && LRU in nodes && nodes[LRU].prev in nodes && e != LRU
    ensures SameData(nodes, r)
  {
    var last := nodes[LRU].prev;
    var first := nodes[e := nodes[e].(next := LRU, prev := last)];
    var second := first[last := first[last].(next := e)];
    second[LRU := second[LRU].(prev := e)]
  }

  lemma AroundApart(lru: seq<nat>, i: nat, j: nat)
    requires Distinct(lru) && LRU !in lru && i <= |lru| && j <= |lru| && i != j
    ensures Around(lru, i) != Around(lru, j)
  {
    assert i > 0 ==> lru[i - 1] in lru;
    assert j > 0 ==> lru[j - 1] in lru;
  }

  lemma UnlinkKeeps(nodes: Nodes, lru: seq<nat>, i: nat)
    requires Ring(nodes, lru) && i < |lru|
    ensures lru[i] in nodes && nodes[lru[i]].next in nodes && nodes[lru[i]].prev in nodes
    ensures Ring(Unlinked(nodes, lru[i]), Cut(lru, i))
  {
    assert RingLink(nodes, lru, i) && RingLink(nodes, lru, i + 1);
    var after, r := Unlinked(nodes, lru[i]), Cut(lru, i);
    CutMembers(lru, i);
    forall j | 0 <= j <= |r|
      ensures RingLink(after, r, j)
    {
      if j < i {
        assert RingLink(nodes, lru, j);
        AroundApart(lru, j, i);
        assert Around(r, j) == Around(lru, j) && Around(r, j + 1) == Around(lru, j + 1);
        NextApart(lru, j + 1, i + 2);
      } else if j > i {
        assert RingLink(nodes, lru, j + 1);
        AroundApart(lru, j + 1, i);
        assert Around(r, j) == Around(lru, j + 1) && Around(r, j + 1) == Around(lru, j + 2);
        NextApart(lru, i + 2, j + 2);
      } else {
        assert Around(r, j) == Around(lru, i) && Around(r, j + 1) == Around(lru, i + 2);
      }
    }
  }

  /** Positions 1 to the end, the head counted last, are all different nodes. */
  lemma NextApart(lru: seq<nat>, i: nat, j: nat)
    requires Distinct(lru) && LRU !in lru && 0 < i < j <= |lru| + 1
    ensures Around(lru, i) != Around(lru, j)
  {
    assert lru[i - 1] in lru;
  }

  lemma AppendKeeps(nodes: Nodes, lru: seq<nat>, e: nat)
    requires Ring(nodes, lru) && e in nodes && e !in lru && e != LRU
    ensures LRU in nodes && nodes[LRU].prev in nodes && Ring(Appended(nodes, e), lru + [e])
  {
    assert RingLink(nodes, lru, 0) && RingLink(nodes, lru, |lru|);
    var after, r := Appended(nodes, e), lru + [e];
    forall j | 0 <= j <= |r|
      ensures RingLink(after, r, j)
    {
      if j < |lru| {
        assert RingLink(nodes, lru, j);
        AroundApart(lru, j, |lru|);
        assert lru[j] in lru;
        assert Around(r, j) == Around(lru, j) && Around(r, j + 1) == Around(lru, j + 1) == lru[j];
        assert j > 0 ==> lru[j - 1] in lru;
      } else if j == |lru| {
        assert Around(r, j) == Around(lru, j) && Around(r, j + 1) == e;
        assert j > 0 ==> lru[j - 1] in lru;
      } else {
        assert Around(r, j) == e && Around(r, j + 1) == LRU;
      }
    }
  }

  // ----- hash chains -----

  /** hash & (length - 1): the length is a power of two. */
  function Index(hash: nat, length: nat): (i: nat)
    requires length > 0
    ensures i < length
  {
    hash % length
  }

  function ChainAt(chain: seq<nat>, i: nat): Option<nat>
  {
    if i < |chain| then Some(chain[i]) else None
  }

  /** The links from position `k` of the chain on. */
  ghost predicate ChainLinks(nodes: Nodes, chain: seq<nat>, k: nat)
  {
    forall i :: k <= i < |chain| ==> ChainLink(nodes, chain, i)
  }

  ghost predicate ChainLink(nodes: Nodes, chain: seq<nat>, i: nat)
    requires i < |chain|
  {
    chain[i] in nodes && nodes[chain[i]].nextHash == ChainAt(chain, i + 1)
  }

  ghost predicate BucketOk(nodes: Nodes, head: Option<nat>, chain: seq<nat>, b: nat, length: nat)
    requires length > 0
  {
    && head == ChainAt(chain, 0) && Distinct(chain) && LRU !in chain && ChainLinks(nodes, chain, 0)
    && forall n :: n in chain ==> n in nodes && Index(nodes[n].hash, length) == b
  }

  ghost predicate TableOk(nodes: Nodes, buckets: seq<Option<nat>>, chains: seq<seq<nat>>)
  {
    |buckets| == |chains| > 0 && forall b :: 0 <= b < |buckets| ==> BucketOk(nodes, buckets[b], chains[b], b, |buckets|)
  }

  ghost predicate InChains(chains: seq<seq<nat>>, n: nat)
  {
    exists b :: 0 <= b < |chains| && n in chains[b]
  }

  /** Only hash links have changed. */
  ghost predicate SameList(nodes: Nodes, after: Nodes)
  {
    nodes.Keys == after.Keys && forall n :: n in nodes ==> after[n] == nodes[n].(nextHash := after[n].nextHash)
  }

  lemma BucketKept(nodes: Nodes, after: Nodes, head: Option<nat>, chain: seq<nat>, b: nat, length: nat)
    requires length > 0 && BucketOk(nodes, head, chain, b, length)
    requires forall n :: n in chain ==>
      n in after && after[n].nextHash == nodes[n].nextHash && after[n].hash == nodes[n].hash
    ensures BucketOk(after, head, chain, b, length)
  {
    hide Index;
    forall i | 0 <= i < |chain|
      ensures ChainLink(after, chain, i)
    {
      assert ChainLink(nodes, chain, i);
      assert chain[i] in chain;
    }
  }

  lemma TableKept(nodes: Nodes, after: Nodes, buckets: seq<Option<nat>>, chains: seq<seq<nat>>)
    requires TableOk(nodes, buckets, chains)
    requires forall n: nat :: InChains(chains, n) && n in nodes ==>
      n in after && after[n].nextHash == nodes[n].nextHash && after[n].hash == nodes[n].hash
    ensures TableOk(after, buckets, chains)
  {
    hide Index;
    forall b | 0 <= b < |buckets|
      ensures BucketOk(after, buckets[b], chains[b], b, |buckets|)
    {
      forall n | n in chains[b]
        ensures n in after && after[n].nextHash == nodes[n].nextHash && after[n].hash == nodes[n].hash
      {
        assert InChains(chains, n);
      }
      BucketKept(nodes, after, buckets[b], chains[b], b, |buckets|);
    }
  }

  lemma RingKept(nodes: Nodes, after: Nodes, lru: seq<nat>)
    requires Ring(nodes, lru)
    requires forall n :: (n in lru || n == LRU) && n in nodes ==>
      n in after && after[n].next == nodes[n].next && after[n].prev == nodes[n].prev
    ensures Ring(after, lru)
  {
    hide Index;
    forall i | 0 <= i <= |lru|
      ensures RingLink(after, lru, i)
    {
      assert RingLink(nodes, lru, i);
      assert i > 0 ==> lru[i - 1] in lru;
      assert i < |lru| ==> lru[i] in lru;
    }
  }

  predicate Matches(h: Handle, key: seq<Byte>, hash: nat)
  {
    h.hash == hash && h.key == key
  }

  /** A place that holds a pointer: a bucket, or the hash link of a node. */
  datatype Slot = Bucket(b: nat) | Link(n: nat)

  function SlotAt(chain: seq<nat>, b: nat, i: nat): Slot
    requires i <= |chain|
  {
    if i == 0 then Bucket(b) else Link(chain[i - 1])
  }

  /** What a store into slot `i` of bucket `b` does. */
  function NodesAfter(nodes: Nodes, slot: Slot, to: Option<nat>): Nodes
    requires slot.Link? ==> slot.n in nodes
  {
    match slot
    case Bucket(_) => nodes
    case Link(n) => nodes[n := nodes[n].(nextHash := to)]
  }

  function BucketsAfter(buckets: seq<Option<nat>>, slot: Slot, to: Option<nat>): seq<Option<nat>>
    requires slot.Bucket? ==> slot.b < |buckets|
  {
    match slot
    case Bucket(b) => buckets[b := to]
    case Link(_) => buckets
  }

  /** Take node `i` out of its chain: its slot skips it. */
  lemma UnchainKeeps(nodes: Nodes, buckets: seq<Option<nat>>, chains: seq<seq<nat>>, b: nat, i: nat)
    requires TableOk(nodes, buckets, chains) && b < |chains| && i < |chains[b]|
    ensures chains[b][i] in nodes && (i > 0 ==> chains[b][i - 1] in nodes)
    ensures var slot, to := SlotAt(chains[b], b, i), nodes[chains[b][i]].nextHash;
      TableOk(NodesAfter(nodes, slot, to), BucketsAfter(buckets, slot, to), chains[b := Cut(chains[b], i)])
  {
    hide Index;
    var chain := chains[b];
    assert BucketOk(nodes, buckets[b], chain, b, |buckets|);
    var slot, to := SlotAt(chain, b, i), nodes[chain[i]].nextHash;
    var after, heads, r := NodesAfter(nodes, slot, to), BucketsAfter(buckets, slot, to), Cut(chain, i);
    UnchainBucket(nodes, buckets[b], chain, b, |buckets|, i, after);
    StoreKeepsOthers(nodes, after, buckets, heads, chains, chains[b := r], b, if i > 0 then chain[i - 1] else LRU);
  }

  lemma UnchainBucket(nodes: Nodes, head: Option<nat>, chain: seq<nat>, b: nat, length: nat, i: nat, after: Nodes)
    requires length > 0 && BucketOk(nodes, head, chain, b, length) && i < |chain| && chain[i] in nodes
    requires i > 0 ==> chain[i - 1] in nodes
    requires after == NodesAfter(nodes, SlotAt(chain, b, i), nodes[chain[i]].nextHash)
    ensures BucketOk(after, if i == 0 then nodes[chain[i]].nextHash else head, Cut(chain, i), b, length)
  {
    hide Index;
    CutMembers(chain, i);
    assert ChainLink(nodes, chain, i);
    UnchainLinks(nodes, chain, b, i, after);
    hide ChainLinks;
    hide Distinct;
  }

  lemma UnchainLinks(nodes: Nodes, chain: seq<nat>, b: nat, i: nat, after: Nodes)
    requires ChainLinks(nodes, chain, 0) && Distinct(chain) && i < |chain| && chain[i] in nodes
    requires i > 0 ==> chain[i - 1] in nodes
    requires after == NodesAfter(nodes, SlotAt(chain, b, i), nodes[chain[i]].nextHash)
    ensures ChainLinks(after, Cut(chain, i), 0)
  {
    var r := Cut(chain, i);
    forall j | 0 <= j < |r|
      ensures ChainLink(after, r, j)
    {
      var q := if j < i then j else j + 1;
      assert ChainLink(nodes, chain, q) && r[j] == chain[q];
      assert ChainLink(nodes, chain, i);
    }
  }

  /** A store into the slot of one bucket, or into a node of its chain or of none,
      leaves the other buckets alone. */
  lemma StoreKeepsOthers(nodes: Nodes, after: Nodes, buckets: seq<Option<nat>>, heads: seq<Option<nat>>,
                         chains: seq<seq<nat>>, longer: seq<seq<nat>>, b: nat, x: nat)
    requires TableOk(nodes, buckets, chains) && |heads| == |buckets| == |longer| && b < |chains|
    requires BucketOk(after, heads[b], longer[b], b, |buckets|)
    requires forall c :: 0 <= c < |chains| && c != b ==> longer[c] == chains[c] && heads[c] == buckets[c]
    requires x in chains[b] || x == LRU
    requires forall n :: n in nodes && n != x ==>
      n in after && after[n].nextHash == nodes[n].nextHash && after[n].hash == nodes[n].hash
    ensures TableOk(after, heads, longer)
  {
    hide Index;
    assert BucketOk(nodes, buckets[b], chains[b], b, |buckets|);
    forall c | 0 <= c < |heads|
      ensures BucketOk(after, heads[c], longer[c], c, |heads|)
    {
      if c != b {
        assert BucketOk(nodes, buckets[c], chains[c], c, |buckets|);
        hide TableOk;
        BucketKept(nodes, after, buckets[c], chains[c], c, |buckets|);
      }
    }
  }

  /** Put node `h` where node `i` of the chain is, or at its end. */
  function Placed(chain: seq<nat>, i: nat, h: nat): seq<nat>
    requires i <= |chain|
  {
    chain[..i] + [h] + (if i < |chain| then chain[i + 1..] else [])
  }

  lemma PlacedMembers(chain: seq<nat>, i: nat, h: nat)
    requires Distinct(chain) && i <= |chain| && h !in chain
    ensures Distinct(Placed(chain, i, h))
    ensures forall n :: n in Placed(chain, i, h) <==> n == h || (n in chain && Some(n) != ChainAt(chain, i))
  {
    hide Index;
    var r := Placed(chain, i, h);
    forall n | n in chain && Some(n) != ChainAt(chain, i)
      ensures n in r
    {
      var j :| 0 <= j < |chain| && chain[j] == n;
      assert r[j] == n;
    }
    assert r[i] == h;
    forall n | n in r && n != h
      ensures n in chain && Some(n) != ChainAt(chain, i)
    {
      var j :| 0 <= j < |r| && r[j] == n;
      assert chain[j] == n;
    }
  }

  lemma PlaceKeeps(nodes: Nodes, buckets: seq<Option<nat>>, chains: seq<seq<nat>>, b: nat, i: nat, h: nat)
    requires TableOk(nodes, buckets, chains) && b < |chains| && i <= |chains[b]|
    requires h in nodes && h != LRU && !InChains(chains, h) && Index(nodes[h].hash, |chains|) == b
    requires nodes[h].nextHash == ChainAt(chains[b], i + 1)
    ensures i > 0 ==> chains[b][i - 1] in nodes
    ensures var slot := SlotAt(chains[b], b, i);
      TableOk(NodesAfter(nodes, slot, Some(h)), BucketsAfter(buckets, slot, Some(h)),
              chains[b := Placed(chains[b], i, h)])
  {
    hide Index;
    var chain := chains[b];
    assert BucketOk(nodes, buckets[b], chain, b, |buckets|);
    assert h !in chain;
    var slot := SlotAt(chain, b, i);
    var after, heads, r := NodesAfter(nodes, slot, Some(h)), BucketsAfter(buckets, slot, Some(h)), Placed(chain, i, h);
    PlaceInBucket(nodes, buckets[b], chain, b, |buckets|, i, h, after);
    StoreKeepsOthers(nodes, after, buckets, heads, chains, chains[b := r], b, if i > 0 then chain[i - 1] else LRU);
  }

  lemma PlaceInBucket(nodes: Nodes, head: Option<nat>, chain: seq<nat>, b: nat, length: nat, i: nat, h: nat,
                      after: Nodes)
    requires length > 0 && BucketOk(nodes, head, chain, b, length) && i <= |chain| && h !in chain
    requires h in nodes && h != LRU && Index(nodes[h].hash, length) == b && nodes[h].nextHash == ChainAt(chain, i + 1)
    requires i > 0 ==> chain[i - 1] in nodes
    requires after == NodesAfter(nodes, SlotAt(chain, b, i), Some(h))
    ensures BucketOk(after, if i == 0 then Some(h) else head, Placed(chain, i, h), b, length)
  {
    hide Index;
    PlacedMembers(chain, i, h);
    PlacedAt(chain, i, h, 0);
    PlaceLinks(nodes, chain, b, i, h, after);
    hide Placed;
    hide ChainLinks;
    hide Distinct;
  }

  lemma PlaceLinks(nodes: Nodes, chain: seq<nat>, b: nat, i: nat, h: nat, after: Nodes)
    requires ChainLinks(nodes, chain, 0) && Distinct(chain) && i <= |chain| && h !in chain
    requires h in nodes && nodes[h].nextHash == ChainAt(chain, i + 1) && (i > 0 ==> chain[i - 1] in nodes)
    requires after == NodesAfter(nodes, SlotAt(chain, b, i), Some(h))
    ensures ChainLinks(after, Placed(chain, i, h), 0)
  {
    var r := Placed(chain, i, h);
    forall j | 0 <= j < |r|
      ensures ChainLink(after, r, j)
    {
      PlacedAt(chain, i, h, j);
      PlacedAt(chain, i, h, j + 1);
      if j != i {
        assert ChainLink(nodes, chain, j);
      }
    }
  }

  lemma PlacedAt(chain: seq<nat>, i: nat, h: nat, j: nat)
    requires i <= |chain|
    ensures ChainAt(Placed(chain, i, h), j) == if j == i then Some(h) else ChainAt(chain, j)
  {
    hide Index;
  }

  // ----- the whole cache -----

  /** Nothing but links has changed. */
  ghost predicate SameCore(nodes: Nodes, after: Nodes)
  {
    nodes.Keys == after.Keys && forall n :: n in nodes ==>
      after[n] == nodes[n].(next := after[n].next, prev := after[n].prev, nextHash := after[n].nextHash)
  }

  /** The charges of all entries numbered below `n` that are not freed. */
  function Total(nodes: Nodes, n: nat): nat
  {
    if n == 0 then 0
    else Total(nodes, n - 1) + (if n - 1 != LRU && n - 1 in nodes then nodes[n - 1].charge else 0)
  }

  lemma {:induction false} TotalSame(nodes: Nodes, after: Nodes, n: nat)
    requires forall m :: 0 <= m < n && m != LRU ==>
      (m in nodes <==> m in after) && (m in nodes ==> after[m].charge == nodes[m].charge)
    ensures Total(after, n) == Total(nodes, n)
  {
    hide Index;
    if n > 0 {
      TotalSame(nodes, after, n - 1);
    }
  }

  lemma {:induction false} TotalWithout(nodes: Nodes, after: Nodes, e: nat, n: nat)
    requires e in nodes && e != LRU && e < n
    requires forall m :: m != e ==> (m in nodes <==> m in after) && (m in nodes ==> after[m].charge == nodes[m].charge)
    requires e !in after
    ensures Total(nodes, n) == Total(after, n) + nodes[e].charge
  {
    hide Index;
    if e == n - 1 {
      TotalSame(nodes, after, n - 1);
    } else {
      TotalWithout(nodes, after, e, n - 1);
    }
  }

  function Held(out: map<nat, nat>, n: nat): nat
  {
    if n in out then out[n] else 0
  }

  ghost predicate SameMembers(lru: seq<nat>, chains: seq<seq<nat>>)
  {
    forall n: nat :: n in lru <==> InChains(chains, n)
  }

  ghost predicate KeysUnique(nodes: Nodes, members: seq<nat>)
  {
    forall m, n :: m in members && n in members && m in nodes && n in nodes ==>
      Matches(nodes[m], nodes[n].key, nodes[n].hash) ==> m == n
  }

  /** One reference for the cache, one for each handle that is out. */
  ghost predicate RefsOk(nodes: Nodes, lru: seq<nat>, out: map<nat, nat>)
  {
    && (forall n :: n in nodes && n != LRU ==>
      nodes[n].refs == Held(out, n) + (if n in lru then 1 else 0) && nodes[n].refs > 0)
    && (forall n :: Held(out, n) > 0 ==> n in nodes && n != LRU)
  }

  /** The same, but entry `e` is counted once too often. */
  ghost predicate RefsBut(nodes: Nodes, lru: seq<nat>, out: map<nat, nat>, e: nat)
  {
    && e in nodes && e != LRU && nodes[e].refs == Held(out, e) + (if e in lru then 1 else 0) + 1
    && (forall n :: n in nodes && n != LRU && n != e ==>
      nodes[n].refs == Held(out, n) + (if n in lru then 1 else 0) && nodes[n].refs > 0)
    && (forall n :: Held(out, n) > 0 ==> n in nodes && n != LRU)
  }

  /** Every entry ever made is either in memory or has had its deleter run, once. */
  ghost predicate IdsOk(nodes: Nodes, deleted: seq<nat>, nextId: nat)
  {
    && LRU in nodes && nextId > LRU && Distinct(deleted)
    && (forall n :: n in nodes ==> n < nextId)
    && (forall n :: n in deleted ==> LRU < n < nextId)
    && (forall n :: LRU < n < nextId ==> (n in nodes <==> n !in deleted))
  }

  function Without(s: seq<nat>, e: nat): seq<nat>
  {
    if s == [] then [] else if s[0] == e then s[1..] else [s[0]] + Without(s[1..], e)
  }

  lemma CutRest(s: seq<nat>, i: nat)
    requires 0 < i < |s|
    ensures Cut(s, i) == [s[0]] + Cut(s[1..], i - 1)
  {
    var r := [s[0]] + Cut(s[1..], i - 1);
    assert forall j :: 0 <= j < |r| ==> r[j] == Cut(s, i)[j];
  }

  lemma DistinctRest(s: seq<nat>, i: nat)
    requires Distinct(s) && 0 < i < |s|
    ensures Distinct(s[1..]) && s[1..][i - 1] == s[i] && s[0] != s[i]
  {
  }

  lemma {:induction false} WithoutIsCut(s: seq<nat>, i: nat)
    requires Distinct(s) && i < |s|
    ensures Without(s, s[i]) == Cut(s, i)
  {
    hide Index;
    hide Distinct;
    if i > 0 {
      DistinctRest(s, i);
      WithoutIsCut(s[1..], i - 1);
      CutRest(s, i);
      hide Cut;
    }
  }

  /** 4, 8, 16, ... */
  ghost predicate TableLength(n: nat)
  {
    n == 4 || (n > 4 && n % 2 == 0 && TableLength(n / 2))
  }

  class LRUCache {
    var capacity: nat
    var usage: nat
    var nodes: Nodes
    var buckets: seq<Option<nat>>
    var elems: nat
    var nextId: nat             // the next node malloc returns
    var deleted: seq<nat>       // the deleter calls, in order
    ghost var lru: seq<nat>     // oldest first
    ghost var chains: seq<seq<nat>>
    ghost var out: map<nat, nat>  // handles the callers hold

    constructor (capacity: nat)
      ensures Valid() && lru == [] && out == map[] && deleted == [] && this.capacity == capacity
    {
      this.capacity := capacity;
      usage, elems, nextId, deleted := 0, 0, 1, [];
      nodes := map[LRU := Handle([], 0, 0, 0, 0, None, LRU, LRU)];
      buckets := seq(4, i => None);
      lru, chains, out := [], seq(4, i => []), map[];
    }

    ghost predicate Valid()
      reads this
    {
      Shape() && RefsOk(nodes, lru, out)
    }

    /** No more entries than chains. */
    ghost predicate Sized()
      reads this`buckets, this`elems
    {
      TableLength(|buckets|) && elems <= |buckets|
    }

    /** Everything but the reference counts. */
    ghost predicate Shape()
      reads this
    {
      && Ring(nodes, lru) && TableOk(nodes, buckets, chains) && SameMembers(lru, chains) && KeysUnique(nodes, lru)
      && elems == |lru| && Sized() && usage == Total(nodes, nextId) && IdsOk(nodes, deleted, nextId)
    }

    function Load(slot: Slot): Option<nat>
      requires if slot.Bucket? then slot.b < |buckets| else slot.n in nodes
      reads this
    {
      match slot
      case Bucket(b) => buckets[b]
      case Link(n) => nodes[n].nextHash
    }

    /** The slot that points to the entry with the key, or the last slot of its chain. */
    method FindPointer(key: seq<Byte>, hash: nat) returns (slot: Slot, ghost i: nat)
      requires TableOk(nodes, buckets, chains)
      ensures var b := Index(hash, |buckets|);
        && i <= |chains[b]| && slot == SlotAt(chains[b], b, i) && SlotHolds(slot, chains[b], i)
        && (forall j :: 0 <= j < i ==> chains[b][j] in nodes && !Matches(nodes[chains[b][j]], key, hash))
        && (i < |chains[b]| ==> chains[b][i] in nodes && Matches(nodes[chains[b][i]], key, hash))
    {
      hide Index;
      ghost var b := Index(hash, |buckets|);
      ghost var chain := chains[b];
      assert BucketOk(nodes, buckets[b], chain, b, |buckets|);
      slot, i := Bucket(Index(hash, |buckets|)), 0;
      while Load(slot).Some? && !Matches(nodes[Load(slot).value], key, hash)
        invariant i <= |chain| && slot == SlotAt(chain, b, i) && SlotHolds(slot, chain, i)
        invariant forall j :: 0 <= j < i ==> chain[j] in nodes && !Matches(nodes[chain[j]], key, hash)
        decreases |chain| - i
      {
        assert ChainLink(nodes, chain, i);
        assert i + 1 < |chain| ==> ChainLink(nodes, chain, i + 1);
        slot, i := Link(Load(slot).value), i + 1;
      }
    }

    ghost predicate SlotHolds(slot: Slot, chain: seq<nat>, i: nat)
      reads this
    {
      (if slot.Bucket? then slot.b < |buckets| else slot.n in nodes) && Load(slot) == ChainAt(chain, i)
      && (i < |chain| ==> chain[i] in nodes)
    }

    method ListRemove(e: nat, ghost i: nat)
      requires Ring(nodes, lru) && i < |lru| && lru[i] == e
      modifies this`nodes, this`lru
      ensures Ring(nodes, lru) && lru == Cut(old(lru), i) && SameData(old(nodes), nodes)
      ensures e in nodes && e !in lru && e != LRU
    {
      UnlinkKeeps(nodes, lru, i);
      CutMembers(lru, i);
      nodes := Unlinked(nodes, e);
      lru := Cut(lru, i);
    }

    method ListAppend(e: nat)
      requires Ring(nodes, lru) && e in nodes && e !in lru && e != LRU
      modifies this`nodes, this`lru
      ensures Ring(nodes, lru) && lru == old(lru) + [e] && SameData(old(nodes), nodes)
    {
      AppendKeeps(nodes, lru, e);
      nodes := Appended(nodes, e);
      lru := lru + [e];
    }

    method Store(slot: Slot, to: Option<nat>)
      requires if slot.Bucket? then slot.b < |buckets| else slot.n in nodes
      modifies this`nodes, this`buckets
      ensures nodes == NodesAfter(old(nodes), slot, to) && buckets == BucketsAfter(old(buckets), slot, to)
    {
      match slot
      case Bucket(b) => buckets := buckets[b := to];
      case Link(n) => nodes := nodes[n := nodes[n].(nextHash := to)];
    }

    /** HandleTable::Insert: takes the place of an entry with the same key, if any. */
    method TableInsert(h: nat) returns (was: Option<nat>)
      requires TableOk(nodes, buckets, chains) && h in nodes && h != LRU && !InChains(chains, h) && Sized()
      modifies this`nodes, this`buckets, this`elems, this`chains
      ensures TableOk(nodes, buckets, chains) && SameList(old(nodes), nodes)
      ensures Replaced(old(nodes), old(chains), chains, was, Some(h), nodes[h].key, nodes[h].hash)
      ensures elems == old(elems) + (if was.None? then 1 else 0) && Sized()
      ensures if elems <= |old(buckets)| then |buckets| == |old(buckets)| else |buckets| / 2 < elems
    {
      hide Index;
      hide TableOk;
      hide InChains;
      hide Placed;
      hide ChainLinks;
      hide BucketOk;
      var key, hash := nodes[h].key, nodes[h].hash;
      TableShape(nodes, buckets, chains);
      var slot;
      ghost var i;
      slot, i := FindPointer(key, hash);
      ghost var b := Index(hash, |buckets|);
      was := Load(slot);
      FoundIn(nodes, buckets, chains, key, hash, i, was);
      EntryPlaced(nodes, buckets, chains, b, i, h);
      nodes := nodes[h := nodes[h].(nextHash := if was.None? then None else nodes[was.value].nextHash)];
      Store(slot, Some(h));
      chains := chains[b := Placed(chains[b], i, h)];
      if was.None? {
        elems := elems + 1;
        if elems > |buckets| {
          Resize();
        }
      }
    }

    /** HandleTable::Resize: the same entries on more chains. */
    method Resize()
      requires TableOk(nodes, buckets, chains)
      modifies this`nodes, this`buckets, this`chains
      ensures TableOk(nodes, buckets, chains) && SameList(old(nodes), nodes)
      ensures forall n: nat :: InChains(chains, n) <==> InChains(old(chains), n)
      ensures Sized() && (|buckets| > 4 ==> |buckets| / 2 < elems)
    {
      hide Index;
      hide TableOk;
      hide Moving;
      var newLength := 4;
      while newLength < elems
        invariant newLength >= 4 && TableLength(newLength) && (newLength > 4 ==> newLength / 2 < elems)
        decreases elems - newLength
      {
        newLength := newLength * 2;
      }
      ghost var nodes0 := nodes;
      TableShape(nodes, buckets, chains);
      var newList: seq<Option<nat>> := seq(newLength, i => None);
      ghost var newChains: seq<seq<nat>> := seq(newLength, i => []);
      MovingStarts(nodes, buckets, chains, newList, newChains);
      var i := 0;
      while i < |buckets|
        invariant buckets == old(buckets) && chains == old(chains)
        invariant 0 <= i <= |buckets| == |chains| && |newList| == |newChains| == newLength
        invariant SameList(nodes0, nodes) && Moving(nodes, buckets, chains, i, 0, newList, newChains)
      {
        var h := buckets[i];
        ghost var k: nat := 0;
        BucketHead(nodes0, buckets, chains, i);
        while h.Some?
          invariant buckets == old(buckets) && chains == old(chains)
          invariant |newList| == |newChains| == newLength && SameList(nodes0, nodes)
          invariant k <= |chains[i]| && h == ChainAt(chains[i], k)
          invariant Moving(nodes, buckets, chains, i, k, newList, newChains)
          decreases |chains[i]| - k
        {
          MovingLink(nodes, buckets, chains, i, k, newList, newChains);
          var next := nodes[h.value].nextHash;
          var c := Index(nodes[h.value].hash, newLength);
          MoveOne(nodes0, nodes, buckets, chains, i, k, newList, newChains);
          nodes := nodes[h.value := nodes[h.value].(nextHash := newList[c])];
          newList := newList[c := h];
          newChains := newChains[c := [h.value] + newChains[c]];
          h, k := next, k + 1;
        }
        NextBucket(nodes, buckets, chains, i, newList, newChains);
        i := i + 1;
      }
      MovingEnds(nodes, buckets, chains, newList, newChains);
      buckets, chains := newList, newChains;
    }

    /** HandleTable::Remove. */
    method TableRemove(key: seq<Byte>, hash: nat) returns (was: Option<nat>)
      requires TableOk(nodes, buckets, chains) && forall n: nat :: InChains(chains, n) ==> elems > 0
      modifies this`nodes, this`buckets, this`elems, this`chains
      ensures TableOk(nodes, buckets, chains) && SameList(old(nodes), nodes)
      ensures Replaced(old(nodes), old(chains), chains, was, None, key, hash)
      ensures elems == old(elems) - (if was.Some? then 1 else 0) && |buckets| == |old(buckets)|
    {
      hide Index;
      hide TableOk;
      TableShape(nodes, buckets, chains);
      var slot;
      ghost var i;
      slot, i := FindPointer(key, hash);
      ghost var b := Index(hash, |buckets|);
      was := Load(slot);
      FoundIn(nodes, buckets, chains, key, hash, i, was);
      if was.Some? {
        UnchainKeeps(nodes, buckets, chains, b, i);
        NextOfMatch(nodes, buckets, chains, b, i);
        CutReplaces(nodes, buckets, chains, b, i);
        Store(slot, nodes[was.value].nextHash);
        chains := chains[b := Cut(chains[b], i)];
        elems := elems - 1;
      }
    }

    /** LRUCache::Unref: the last reference runs the deleter and frees the entry. */
    method Unref(e: nat)
      requires e in nodes && nodes[e].refs > 0 && (nodes[e].refs == 1 ==> nodes[e].charge <= usage)
      modifies this`nodes, this`usage, this`deleted
      ensures var h := old(nodes)[e].(refs := old(nodes)[e].refs - 1);
        && nodes == (if h.refs > 0 then old(nodes)[e := h] else old(nodes) - {e})
        && usage == (if h.refs > 0 then old(usage) else old(usage) - h.charge)
        && deleted == (if h.refs > 0 then old(deleted) else old(deleted) + [e])
    {
      var h := nodes[e].(refs := nodes[e].refs - 1);
      if h.refs > 0 {
        nodes := nodes[e := h];
      } else {
        usage := usage - h.charge;
        deleted := deleted + [e];
        nodes := nodes - {e};
      }
    }

    /** Give up the reference of an entry that was detached or handed back. */
    method LetGo(e: nat)
      requires Shape() && RefsBut(nodes, lru, out, e)
      modifies this`nodes, this`usage, this`deleted
      ensures Valid() && SameEntries(old(nodes), nodes, old(nextId))
      ensures deleted == (if Held(out, e) == 0 && e !in lru then old(deleted) + [e] else old(deleted))
      ensures e in old(nodes) && old(usage) == usage + FreedCharge(old(nodes), nodes, e)
    {
      hide Ring;
      hide TableOk;
      hide SameMembers;
      hide KeysUnique;
      hide RefsOk;
      hide RefsBut;
      hide IdsOk;
      hide Total;
      hide SameEntries;
      hide Held;
      hide InChains;
      Unreferenced(nodes, buckets, chains, lru, out, deleted, nextId, e);
      Unref(e);
    }

    /** LRUCache::Lookup: the entry with the key becomes the newest and is handed out. */
    method Lookup(key: seq<Byte>, hash: nat) returns (e: Option<nat>)
      requires Valid()
      modifies this`nodes, this`lru, this`out
      ensures Valid() && deleted == old(deleted) && SameEntries(old(nodes), nodes, old(nextId))
      ensures e.Some? ==> IsMember(old(nodes), old(lru), key, hash, e.value)
      ensures e.None? ==> forall n: nat :: !IsMember(old(nodes), old(lru), key, hash, n)
      ensures lru == (if e.None? then old(lru) else Without(old(lru), e.value) + [e.value])
      ensures out == (if e.None? then old(out) else old(out)[e.value := Held(old(out), e.value) + 1])
      ensures usage == old(usage) && capacity == old(capacity) && nextId == old(nextId)
    {
      hide Ring;
      hide TableOk;
      hide SameMembers;
      hide KeysUnique;
      hide IdsOk;
      hide RefsOk;
      hide Total;
      hide Without;
      e := TableLookup(key, hash);
      SameAsBefore(nodes, nextId);
      if e.Some? {
        MoveToNewest(e.value);
        out := out[e.value := Held(out, e.value) + 1];
      }
    }

    /** HandleTable::Lookup. */
    method TableLookup(key: seq<Byte>, hash: nat) returns (e: Option<nat>)
      requires TableOk(nodes, buckets, chains) && SameMembers(lru, chains)
      ensures e.Some? ==> IsMember(nodes, lru, key, hash, e.value)
      ensures e.None? ==> forall n: nat :: !IsMember(nodes, lru, key, hash, n)
    {
      hide Index;
      hide TableOk;
      hide InChains;
      TableShape(nodes, buckets, chains);
      var slot;
      ghost var i;
      slot, i := FindPointer(key, hash);
      e := Load(slot);
      FoundIn(nodes, buckets, chains, key, hash, i, e);
    }

    /** One more handle on an entry. */
    method Ref(e: nat)
      requires Ring(nodes, lru) && e in lru
      modifies this`nodes
      ensures e in old(nodes) && e != LRU && nodes == old(nodes)[e := old(nodes)[e].(refs := old(nodes)[e].refs + 1)]
      ensures Ring(nodes, lru) && Distinct(lru)
    {
      MembersAllocated(nodes, lru);
      nodes := nodes[e := nodes[e].(refs := nodes[e].refs + 1)];
      RingKept(old(nodes), nodes, lru);
    }

    /** A lookup's reference, then LRU_Remove and LRU_Append. */
    method MoveToNewest(e: nat)
      requires Valid() && e in lru
      modifies this`nodes, this`lru
      ensures Shape() && RefsOk(nodes, lru, out[e := Held(out, e) + 1]) && lru == Without(old(lru), e) + [e]
      ensures SameEntries(old(nodes), nodes, old(nextId))
    {
      hide Ring;
      hide Distinct;
      hide TableOk;
      hide SameMembers;
      hide KeysUnique;
      hide RefsOk;
      hide IdsOk;
      hide Total;
      hide Without;
      hide InChains;
      hide SameEntries;
      hide SameData;
      hide OneMoreRef;
      ghost var i := IndexIn(lru, e);
      Ref(e);
      ghost var counted := nodes;
      ListRemove(e, i);
      ghost var mid := nodes;
      ListAppend(e);
      MovedOn(old(nodes), counted, mid, nodes, e);
      Touched(old(nodes), nodes, buckets, chains, old(lru), i, out, deleted, nextId);
    }

    /** LRUCache::Release. */
    method Release(e: nat)
      requires Valid() && Held(out, e) > 0
      modifies this`usage, this`nodes, this`deleted, this`out
      ensures Valid() && lru == old(lru) && out == old(out)[e := Held(old(out), e) - 1]
      ensures SameEntries(old(nodes), nodes, old(nextId))
      ensures deleted == (if Held(out, e) == 0 && e !in lru then old(deleted) + [e] else old(deleted))
      ensures capacity == old(capacity) && nextId == old(nextId)
    {
      hide Ring;
      hide TableOk;
      hide SameMembers;
      hide KeysUnique;
      hide IdsOk;
      Returned(nodes, lru, out, e);
      out := out[e := Held(out, e) - 1];
      LetGo(e);
    }

    /** LRUCache::Erase. */
    method Erase(key: seq<Byte>, hash: nat)
      requires Valid()
      modifies this`usage, this`nodes, this`buckets, this`elems, this`deleted, this`lru, this`chains
      ensures Valid() && out == old(out) && SameEntries(old(nodes), nodes, old(nextId))
      ensures KeptOf(old(nodes), old(lru), key, hash, lru)
      ensures capacity == old(capacity) && nextId == old(nextId)
    {
      hide Index;
      hide TableOk;
      hide InChains;
      hide Ring;
      hide KeysUnique;
      hide IdsOk;
      hide Total;
      hide RefsOk;
      hide RefsBut;
      hide KeptOf;
      hide Without;
      hide SameMembers;
      SomeElements(lru, chains);
      MembersAllocated(nodes, lru);
      var e := TableRemove(key, hash);
      ListStays(old(nodes), nodes, lru);
      CoreKept(old(nodes), nodes, lru, out, deleted, nextId);
      UniqueKept(old(nodes), nodes, lru, lru);
      if e.None? {
        NothingRemoved(old(nodes), old(chains), chains, lru, key, hash);
      } else {
        ghost var between := nodes;
        ghost var i := RemovedMember(old(nodes), old(chains), chains, lru, e.value, key, hash);
        ListRemove(e.value, i);
        TableStays(between, nodes, buckets, chains);
        CoreKept(between, nodes, old(lru), out, deleted, nextId);
        Detached(nodes, old(lru), i, out);
        UniqueKept(between, nodes, old(lru), lru);
        MembersDetached(old(nodes), old(chains), chains, old(lru), i, key, hash);
        LetGo(e.value);
      }
    }

    /** LRUCache::Insert: the new entry is the newest; one with its key goes, and
        then the oldest, one by one, for as long as the usage is over the capacity. */
    method Insert(key: seq<Byte>, hash: nat, value: nat, charge: nat) returns (e: nat)
      requires Valid()
      modifies this`usage, this`nodes, this`buckets, this`elems, this`nextId, this`deleted
      modifies this`lru, this`chains, this`out
      ensures Valid() && e == old(nextId) && nextId == e + 1 && out == old(out)[e := 1] && capacity == old(capacity)
      ensures SameEntries(old(nodes), nodes, old(nextId)) && e in nodes && Carries(nodes[e], key, hash, value, charge)
      ensures usage <= capacity || lru == []
      ensures exists kept, n: nat ::
        KeptOf(old(nodes), old(lru), key, hash, kept) && Evicted(old(nodes), kept + [e], nodes, lru, n, usage, capacity)
    {
      hide Ring;
      hide TableOk;
      hide SameMembers;
      hide KeysUnique;
      hide IdsOk;
      hide RefsOk;
      hide Total;
      hide KeptOf;
      ghost var kept;
      e, kept := AddEntry(key, hash, value, charge);
      ghost var added := nodes;
      HandedOut(nodes, lru, out, e);
      MembersNumbered(nodes, lru, deleted, nextId);
      ghost var n := EvictUntilFits(e);
      HandedOut(nodes, lru, out, e);
      EvictedSince(old(nodes), added, kept + [e], nodes, lru, n, usage, capacity, e);
    }

    /** Insert's second loop. */
    method EvictUntilFits(ghost e: nat) returns (ghost n: nat)
      requires Valid() && Held(out, e) > 0
      modifies this`usage, this`nodes, this`buckets, this`elems, this`deleted, this`lru, this`chains
      ensures Valid() && out == old(out) && capacity == old(capacity) && nextId == old(nextId)
      ensures SameEntries(old(nodes), nodes, nextId) && (usage <= capacity || lru == [])
      ensures Evicted(old(nodes), old(lru), nodes, lru, n, usage, capacity)
    {
      hide Ring;
      hide TableOk;
      hide SameMembers;
      hide KeysUnique;
      hide IdsOk;
      hide RefsOk;
      hide Total;
      n := 0;
      ghost var first := lru;
      RingEnds(nodes, lru);
      SameAsBefore(nodes, nextId);
      MembersNumbered(nodes, lru, deleted, nextId);
      while usage > capacity && nodes[LRU].next != LRU
        invariant Valid() && out == old(out) && capacity == old(capacity) && nextId == old(nextId)
        invariant SameEntries(old(nodes), nodes, nextId) && LRU in nodes && (nodes[LRU].next == LRU <==> lru == [])
        invariant Evicted(old(nodes), first, nodes, lru, n, usage, capacity)
        decreases |lru|
      {
        ghost var before := nodes;
        EvictOldest();
        RingEnds(nodes, lru);
        FreedSame(old(nodes), before, nodes, first[n], nextId);
        n := n + 1;
      }
    }

    /** The new entry, newest on the list and not in the table yet. */
    method NewEntry(key: seq<Byte>, hash: nat, value: nat, charge: nat) returns (e: nat)
      requires Valid()
      modifies this`nodes, this`nextId, this`usage, this`out, this`lru
      ensures e == old(nextId) && nextId == e + 1 && out == old(out)[e := 1] && lru == old(lru) + [e]
      ensures Ring(nodes, lru) && TableOk(nodes, buckets, chains) && RefsOk(nodes, lru, out)
      ensures IdsOk(nodes, deleted, nextId)
      ensures usage == Total(nodes, nextId) && SameEntries(old(nodes), nodes, e) && Survive(old(nodes), nodes, old(lru))
      ensures e in nodes && Carries(nodes[e], key, hash, value, charge) && e !in old(lru) && !InChains(chains, e)
      ensures e != LRU
      ensures Distinct(old(lru))
    {
      hide TableOk;
      hide InChains;
      hide KeysUnique;
      hide IdsOk;
      hide Total;
      hide RefsOk;
      hide SameMembers;
      hide SameData;
      hide SameEntries;
      MembersAllocated(nodes, lru);
      NewNode(nodes, chains, lru, deleted, nextId);
      e, nextId := nextId, nextId + 1;
      var h := Handle(key, hash, value, charge, 2, None, e, e);
      nodes := nodes[e := h];
      ghost var larger := nodes;
      RingKept(old(nodes), nodes, lru);
      hide Ring;
      hide Distinct;
      ListAppend(e);
      usage, out := usage + charge, out[e := 1];
      Created(old(nodes), larger, nodes, old(lru), old(out), deleted, e, h);
      TableWith(old(nodes), larger, nodes, buckets, chains, e);
    }

    /** The first half of Insert: the new entry on the list and in the table, in
        place of one with its key. */
    method AddEntry(key: seq<Byte>, hash: nat, value: nat, charge: nat) returns (e: nat, ghost kept: seq<nat>)
      requires Valid()
      modifies this`usage, this`nodes, this`buckets, this`elems, this`nextId, this`deleted
      modifies this`lru, this`chains, this`out
      ensures Valid() && e == old(nextId) && nextId == e + 1 && out == old(out)[e := 1] && capacity == old(capacity)
      ensures KeptOf(old(nodes), old(lru), key, hash, kept) && lru == kept + [e]
      ensures SameEntries(old(nodes), nodes, old(nextId)) && e in nodes && Carries(nodes[e], key, hash, value, charge)
    {
      hide Ring;
      hide Distinct;
      hide TableOk;
      hide InChains;
      hide KeysUnique;
      hide IdsOk;
      hide Total;
      hide RefsOk;
      hide RefsBut;
      hide SameMembers;
      hide KeptOf;
      hide Survive;
      hide SameData;
      hide SameList;
      hide Without;
      hide Replaced;
      e := NewEntry(key, hash, value, charge);
      ghost var appended := nodes;
      var was := TableInsert(e);
      ListStays(appended, nodes, lru);
      hide SameCore;
      CoreKept(appended, nodes, lru, out, deleted, nextId);
      ghost var i;
      kept, i := Entered(old(nodes), appended, old(chains), chains, old(lru), was, e, key, hash);
      UniqueKept(appended, nodes, kept + [e], kept + [e]);
      if was.Some? {
        TakeOff(was.value, i, old(lru) + [e]);
      }
      HandedOut(nodes, lru, out, e);
    }

    /** Take the replaced entry off the list. */
    method TakeOff(e: nat, ghost i: nat, ghost all: seq<nat>)
      requires Ring(nodes, lru) && lru == all && i < |lru| && lru[i] == e && TableOk(nodes, buckets, chains)
      requires SameMembers(Cut(lru, i), chains) && KeysUnique(nodes, Cut(lru, i)) && RefsOk(nodes, lru, out)
      requires IdsOk(nodes, deleted, nextId) && usage == Total(nodes, nextId) && elems == |lru| - 1
      requires Sized()
      modifies this`nodes, this`lru, this`usage, this`deleted
      ensures Valid() && lru == Cut(all, i) && SameEntries(old(nodes), nodes, nextId)
    {
      hide Ring;
      hide TableOk;
      hide KeysUnique;
      hide IdsOk;
      hide Total;
      hide RefsOk;
      hide RefsBut;
      hide SameMembers;
      hide SameData;
      hide SameCore;
      ghost var between := nodes;
      RingMembers(nodes, lru);
      hide Distinct;
      ListRemove(e, i);
      TableStays(between, nodes, buckets, chains);
      CoreKept(between, nodes, all, out, deleted, nextId);
      Detached(nodes, all, i, out);
      UniqueKept(between, nodes, lru, lru);
      LetGo(e);
    }

    /** One round of Insert's second loop: the oldest entry goes. */
    method EvictOldest()
      requires Valid() && lru != []
      modifies this`usage, this`nodes, this`buckets, this`elems, this`deleted, this`lru, this`chains
      ensures Valid() && lru == old(lru)[1..] && out == old(out) && capacity == old(capacity) && nextId == old(nextId)
      ensures SameEntries(old(nodes), nodes, nextId)
      ensures old(usage) == usage + FreedCharge(old(nodes), nodes, old(lru)[0])
    {
      hide Index;
      hide TableOk;
      hide InChains;
      hide KeysUnique;
      hide IdsOk;
      hide Total;
      hide RefsOk;
      hide RefsBut;
      hide Ring;
      hide Distinct;
      hide SameMembers;
      hide KeptOf;
      hide Without;
      hide Replaced;
      hide SameData;
      hide SameList;
      RingEnds(nodes, lru);
      MembersAllocated(nodes, lru);
      SomeElements(lru, chains);
      var e := nodes[LRU].next;
      ListRemove(e, 0);
      ghost var between := nodes;
      TableStays(old(nodes), nodes, buckets, chains);
      CoreKept(old(nodes), nodes, old(lru), out, deleted, nextId);
      UniqueKept(old(nodes), nodes, old(lru), old(lru));
      var key, hash := nodes[e].key, nodes[e].hash;
      var was := TableRemove(key, hash);
      TheOne(between, old(lru), old(chains), chains, was, key, hash, e);
      ListStays(between, nodes, lru);
      CoreKept(between, nodes, old(lru), out, deleted, nextId);
      Detached(nodes, old(lru), 0, out);
      UniqueKept(between, nodes, old(lru), lru);
      MembersDetached(between, old(chains), chains, old(lru), 0, key, hash);
      hide Distinct;
      hide SameCore;
      LetGo(e);
    }

    /** ~LRUCache, called when no handle is out: every deleter has then run once. */
    method Destroy()
      requires Valid() && forall n: nat :: Held(out, n) == 0
      modifies this
      ensures nodes.Keys == {LRU} && usage == 0 && Distinct(deleted)
      ensures forall n: nat :: n in deleted <==> LRU < n < nextId
      ensures nextId == old(nextId)
    {
      hide Ring;
      hide Distinct;
      hide TableOk;
      hide SameMembers;
      hide KeysUnique;
      hide RefsOk;
      hide IdsOk;
      hide Total;
      hide Leaving;
      hide Held;
      ghost var k: nat, all := 0, nodes;
      RingEnds(nodes, lru);
      OnlyListed(nodes, lru, out);
      DestroyStarts(nodes, lru);
      var e := nodes[LRU].next;
      while e != LRU
        invariant k <= |lru| && e == Around(lru, k + 1) && lru == old(lru) && nextId == old(nextId)
        invariant Leaving(all, nodes, lru, k) && IdsOk(nodes, deleted, nextId) && usage == Total(nodes, nextId)
        decreases |lru| - k
      {
        NextToLeave(all, nodes, lru, k, e);
        var next := nodes[e].next;
        LastRef(nodes, deleted, nextId, e);
        Unref(e);
        e, k := next, k + 1;
      }
      LeftBehind(all, nodes, lru, k, deleted, nextId);
    }
  }

  lemma TableShape(nodes: Nodes, buckets: seq<Option<nat>>, chains: seq<seq<nat>>)
    requires TableOk(nodes, buckets, chains)
    ensures |buckets| == |chains| > 0
  {
  }

  /** The entry `was`, which had the key, if any had, has left the chains and
      `now`, if any, has come in. */
  ghost predicate Replaced(nodes: Nodes, chains: seq<seq<nat>>, after: seq<seq<nat>>, was: Option<nat>,
                           now: Option<nat>,
                           key: seq<Byte>, hash: nat)
  {
    && (forall n: nat :: InChains(after, n) <==> Some(n) == now || (InChains(chains, n) && Some(n) != was))
    && (was.Some? ==> InChains(chains, was.value) && was.value in nodes && Matches(nodes[was.value], key, hash))
    && (was.None? ==> forall n: nat :: InChains(chains, n) && n in nodes ==> !Matches(nodes[n], key, hash))
  }

  lemma BucketMember(nodes: Nodes, buckets: seq<Option<nat>>, chains: seq<seq<nat>>, b: nat, n: nat)
    requires TableOk(nodes, buckets, chains) && b < |chains| && n in chains[b]
    ensures n in nodes && b == Index(nodes[n].hash, |chains|) && n != LRU
  {
    hide Index;
    assert BucketOk(nodes, buckets[b], chains[b], b, |buckets|);
  }

  lemma BucketsApart(nodes: Nodes, buckets: seq<Option<nat>>, chains: seq<seq<nat>>, b: nat, c: nat)
    requires TableOk(nodes, buckets, chains) && b < |chains| && c < |chains| && b != c
    ensures forall n :: n in chains[b] ==> n !in chains[c]
  {
    hide Index;
    assert BucketOk(nodes, buckets[b], chains[b], b, |buckets|) && BucketOk(nodes, buckets[c], chains[c], c, |buckets|);
  }

  /** The chain of a key's hash settles whether any entry has the key. */
  lemma FoundIn(nodes: Nodes, buckets: seq<Option<nat>>, chains: seq<seq<nat>>, key: seq<Byte>, hash: nat, i: nat,
                was: Option<nat>)
    requires TableOk(nodes, buckets, chains)
    requires var chain := chains[Index(hash, |buckets|)];
      && i <= |chain| && was == ChainAt(chain, i)
      && (forall j :: 0 <= j < i ==> chain[j] in nodes && !Matches(nodes[chain[j]], key, hash))
      && (i < |chain| ==> chain[i] in nodes && Matches(nodes[chain[i]], key, hash))
    ensures was.Some? ==> InChains(chains, was.value) && was.value in nodes && Matches(nodes[was.value], key, hash)
    ensures was.None? ==> forall n: nat :: InChains(chains, n) && n in nodes ==> !Matches(nodes[n], key, hash)
  {
    hide Index;
    var b := Index(hash, |buckets|);
    forall n | was.None? && InChains(chains, n) && n in nodes
      ensures !Matches(nodes[n], key, hash)
    {
      var c :| 0 <= c < |chains| && n in chains[c];
      BucketMember(nodes, buckets, chains, c, n);
      if c == b {
        var j :| 0 <= j < |chains[b]| && chains[b][j] == n;
      }
    }
  }

  lemma NextOfMatch(nodes: Nodes, buckets: seq<Option<nat>>, chains: seq<seq<nat>>, b: nat, i: nat)
    requires TableOk(nodes, buckets, chains) && b < |chains| && i <= |chains[b]|
    ensures i < |chains[b]| ==> chains[b][i] in nodes && nodes[chains[b][i]].nextHash == ChainAt(chains[b], i + 1)
  {
    assert BucketOk(nodes, buckets[b], chains[b], b, |buckets|);
    assert i < |chains[b]| ==> ChainLink(nodes, chains[b], i);
  }

  lemma EntryPlaced(nodes: Nodes, buckets: seq<Option<nat>>, chains: seq<seq<nat>>, b: nat, i: nat, h: nat)
    requires TableOk(nodes, buckets, chains) && b < |chains| && i <= |chains[b]|
    requires h in nodes && h != LRU && !InChains(chains, h) && Index(nodes[h].hash, |chains|) == b
    ensures i > 0 ==> chains[b][i - 1] in nodes
    ensures i < |chains[b]| ==> chains[b][i] in nodes && nodes[chains[b][i]].nextHash == ChainAt(chains[b], i + 1)
    ensures var linked, slot := nodes[h := nodes[h].(nextHash := ChainAt(chains[b], i + 1))], SlotAt(chains[b], b, i);
      && TableOk(NodesAfter(linked, slot, Some(h)), BucketsAfter(buckets, slot, Some(h)),
                 chains[b := Placed(chains[b], i, h)])
      && SameList(nodes, NodesAfter(linked, slot, Some(h)))
    ensures forall n: nat :: InChains(chains[b := Placed(chains[b], i, h)], n) <==>
      n == h || (InChains(chains, n) && Some(n) != ChainAt(chains[b], i))
  {
    hide Index;
    hide TableOk;
    hide InChains;
    hide Placed;
    hide SameList;
    TableShape(nodes, buckets, chains);
    NextOfMatch(nodes, buckets, chains, b, i);
    var linked := nodes[h := nodes[h].(nextHash := ChainAt(chains[b], i + 1))];
    TableKept(nodes, linked, buckets, chains);
    PlaceKeeps(linked, buckets, chains, b, i, h);
    PlacedReplaces(nodes, buckets, chains, b, i, h);
    OnlyHashLinks(nodes, linked, h, SlotAt(chains[b], b, i), Some(h));
  }

  lemma OnlyHashLinks(nodes: Nodes, linked: Nodes, h: nat, slot: Slot, to: Option<nat>)
    requires h in nodes && h in linked && (slot.Link? ==> slot.n in nodes)
    requires linked == nodes[h := nodes[h].(nextHash := linked[h].nextHash)]
    ensures SameList(nodes, NodesAfter(linked, slot, to))
  {
  }

  lemma PlacedReplaces(nodes: Nodes, buckets: seq<Option<nat>>, chains: seq<seq<nat>>, b: nat, i: nat, h: nat)
    requires TableOk(nodes, buckets, chains) && b < |chains| && i <= |chains[b]| && !InChains(chains, h)
    ensures forall n: nat :: InChains(chains[b := Placed(chains[b], i, h)], n) <==>
      n == h || (InChains(chains, n) && Some(n) != ChainAt(chains[b], i))
  {
    hide Index;
    assert BucketOk(nodes, buckets[b], chains[b], b, |buckets|);
    var after := chains[b := Placed(chains[b], i, h)];
    assert h !in chains[b];
    PlacedMembers(chains[b], i, h);
    MembersAfter(nodes, buckets, chains, b, after, ChainAt(chains[b], i), Some(h));
  }

  lemma CutReplaces(nodes: Nodes, buckets: seq<Option<nat>>, chains: seq<seq<nat>>, b: nat, i: nat)
    requires TableOk(nodes, buckets, chains) && b < |chains| && i < |chains[b]|
    ensures forall n: nat :: InChains(chains[b := Cut(chains[b], i)], n) <==> InChains(chains, n) && n != chains[b][i]
  {
    hide Index;
    assert BucketOk(nodes, buckets[b], chains[b], b, |buckets|);
    CutMembers(chains[b], i);
    MembersAfter(nodes, buckets, chains, b, chains[b := Cut(chains[b], i)], Some(chains[b][i]), None);
  }

  /** Changing one chain changes the members as it changes the chain. */
  lemma MembersAfter(nodes: Nodes, buckets: seq<Option<nat>>, chains: seq<seq<nat>>, b: nat, after: seq<seq<nat>>,
                     was: Option<nat>, now: Option<nat>)
    requires TableOk(nodes, buckets, chains) && b < |chains| == |after| && (was.Some? ==> was.value in chains[b])
    requires forall c :: 0 <= c < |chains| && c != b ==> after[c] == chains[c]
    requires forall n :: n in after[b] <==> Some(n) == now || (n in chains[b] && Some(n) != was)
    ensures forall n: nat :: InChains(after, n) <==> Some(n) == now || (InChains(chains, n) && Some(n) != was)
  {
    hide Index;
    forall n: nat
      ensures InChains(after, n) <==> Some(n) == now || (InChains(chains, n) && Some(n) != was)
    {
      if InChains(after, n) {
        var c :| 0 <= c < |after| && n in after[c];
        if c != b {
          assert n in chains[c];
          BucketsApart(nodes, buckets, chains, b, c);
        }
      }
      if InChains(chains, n) && Some(n) != was {
        var c :| 0 <= c < |chains| && n in chains[c];
        assert n in after[c];
      }
      if Some(n) == now {
        assert n in after[b];
      }
    }
  }

  // ----- moving the entries to a longer table -----

  ghost predicate MovedAlready(chains: seq<seq<nat>>, i: nat, k: nat, n: nat)
  {
    || (exists c :: 0 <= c < i && c < |chains| && n in chains[c])
    || (i < |chains| && k <= |chains[i]| && n in chains[i][..k])
  }

  /** Buckets before `i` and the first `k` entries of bucket `i` are in the new
      table; the rest still hangs together as before. */
  ghost predicate Moving(nodes: Nodes, buckets: seq<Option<nat>>, chains: seq<seq<nat>>, i: nat, k: nat,
                         newList: seq<Option<nat>>, newChains: seq<seq<nat>>)
  {
    && i <= |chains| && (i < |chains| ==> k <= |chains[i]| && ChainLinks(nodes, chains[i], k))
    && (forall c :: i < c < |chains| ==> ChainLinks(nodes, chains[c], 0))
    && TableOk(nodes, newList, newChains)
    && (forall n: nat :: InChains(newChains, n) <==> MovedAlready(chains, i, k, n))
  }

  lemma MovingStarts(nodes: Nodes, buckets: seq<Option<nat>>, chains: seq<seq<nat>>,
                     newList: seq<Option<nat>>, newChains: seq<seq<nat>>)
    requires TableOk(nodes, buckets, chains) && |newList| == |newChains| > 0
    requires forall i :: 0 <= i < |newList| ==> newList[i] == None && newChains[i] == []
    ensures Moving(nodes, buckets, chains, 0, 0, newList, newChains)
  {
    hide Index;
    forall c | 0 <= c < |chains|
      ensures ChainLinks(nodes, chains[c], 0)
    {
      assert BucketOk(nodes, buckets[c], chains[c], c, |buckets|);
    }
  }

  lemma BucketHead(nodes: Nodes, buckets: seq<Option<nat>>, chains: seq<seq<nat>>, i: nat)
    requires TableOk(nodes, buckets, chains) && i < |chains|
    ensures buckets[i] == ChainAt(chains[i], 0)
  {
    assert BucketOk(nodes, buckets[i], chains[i], i, |buckets|);
  }

  lemma MovingLink(nodes: Nodes, buckets: seq<Option<nat>>, chains: seq<seq<nat>>, i: nat, k: nat,
                   newList: seq<Option<nat>>, newChains: seq<seq<nat>>)
    requires Moving(nodes, buckets, chains, i, k, newList, newChains) && i < |chains| && k < |chains[i]|
    ensures chains[i][k] in nodes && nodes[chains[i][k]].nextHash == ChainAt(chains[i], k + 1)
  {
    assert ChainLink(nodes, chains[i], k);
  }

  lemma MoveOne(nodes0: Nodes, nodes: Nodes, buckets: seq<Option<nat>>, chains: seq<seq<nat>>, i: nat, k: nat,
                newList: seq<Option<nat>>, newChains: seq<seq<nat>>)
    requires TableOk(nodes0, buckets, chains) && SameList(nodes0, nodes) && i < |chains| && k < |chains[i]|
    requires Moving(nodes, buckets, chains, i, k, newList, newChains) && |newList| == |newChains| > 0
    requires chains[i][k] in nodes
    ensures var h := chains[i][k];
      var c := Index(nodes[h].hash, |newList|);
      Moving(nodes[h := nodes[h].(nextHash := newList[c])], buckets, chains, i, k + 1, newList[c := Some(h)],
        newChains[c := [h] + newChains[c]])
  {
    hide Index;
    var h := chains[i][k];
    var c := Index(nodes[h].hash, |newList|);
    var after := nodes[h := nodes[h].(nextHash := newList[c])];
    NotMovedYet(nodes0, buckets, chains, i, k);
    assert !InChains(newChains, h);
    PushKeeps(nodes, newList, newChains, c, h);
    PushMembers(nodes, newList, newChains, c, h);
    OneMoreMoved(chains, i, k, k + 1);
    RestKept(nodes0, nodes, buckets, chains, i, k, after);
    hide TableOk;
    hide InChains;
    hide ChainLinks;
    hide MovedAlready;
  }

  lemma OneMoreMoved(chains: seq<seq<nat>>, i: nat, k: nat, next: nat)
    requires i < |chains| && k < |chains[i]| && next == k + 1
    ensures forall n: nat :: MovedAlready(chains, i, next, n) <==> n == chains[i][k] || MovedAlready(chains, i, k, n)
  {
    assert chains[i][..k + 1] == chains[i][..k] + [chains[i][k]];
  }

  lemma NotMovedYet(nodes0: Nodes, buckets: seq<Option<nat>>, chains: seq<seq<nat>>, i: nat, k: nat)
    requires TableOk(nodes0, buckets, chains) && i < |chains| && k < |chains[i]|
    ensures !MovedAlready(chains, i, k, chains[i][k]) && chains[i][k] != LRU
    ensures forall c :: 0 <= c < |chains| && c != i ==> chains[i][k] !in chains[c]
  {
    hide Index;
    var h := chains[i][k];
    assert BucketOk(nodes0, buckets[i], chains[i], i, |buckets|);
    forall c | 0 <= c < |chains| && c != i
      ensures h !in chains[c]
    {
      BucketsApart(nodes0, buckets, chains, i, c);
    }
  }

  lemma RestKept(nodes0: Nodes, nodes: Nodes, buckets: seq<Option<nat>>, chains: seq<seq<nat>>, i: nat, k: nat,
                 after: Nodes)
    requires TableOk(nodes0, buckets, chains) && i < |chains| && k < |chains[i]|
    requires ChainLinks(nodes, chains[i], k) && forall c :: i < c < |chains| ==> ChainLinks(nodes, chains[c], 0)
    requires forall n :: n in nodes && n != chains[i][k] ==> n in after && after[n] == nodes[n]
    ensures ChainLinks(after, chains[i], k + 1) && forall c :: i < c < |chains| ==> ChainLinks(after, chains[c], 0)
  {
    hide Index;
    NotMovedYet(nodes0, buckets, chains, i, k);
    assert BucketOk(nodes0, buckets[i], chains[i], i, |buckets|);
    hide TableOk;
    forall j | k + 1 <= j < |chains[i]|
      ensures ChainLink(after, chains[i], j)
    {
      assert ChainLink(nodes, chains[i], j);
    }
    forall c | i < c < |chains|
      ensures ChainLinks(after, chains[c], 0)
    {
      forall j | 0 <= j < |chains[c]|
        ensures ChainLink(after, chains[c], j)
      {
        assert ChainLink(nodes, chains[c], j);
        assert chains[c][j] in chains[c];
      }
    }
  }

  /** Push a node onto the front of its chain. */
  lemma PushKeeps(nodes: Nodes, buckets: seq<Option<nat>>, chains: seq<seq<nat>>, b: nat, h: nat)
    requires TableOk(nodes, buckets, chains) && h in nodes && h != LRU && !InChains(chains, h)
    requires b == Index(nodes[h].hash, |buckets|)
    ensures TableOk(nodes[h := nodes[h].(nextHash := buckets[b])], buckets[b := Some(h)], chains[b := [h] + chains[b]])
  {
    hide Index;
    var after := nodes[h := nodes[h].(nextHash := buckets[b])];
    TableKept(nodes, after, buckets, chains);
    assert BucketOk(after, buckets[b], chains[b], b, |buckets|);
    assert h !in chains[b];
    var r := [h] + chains[b];
    forall j | 0 <= j < |r|
      ensures ChainLink(after, r, j)
    {
      if j > 0 {
        assert ChainLink(after, chains[b], j - 1) && r[j] == chains[b][j - 1];
      }
    }
    StoreKeepsOthers(after, after, buckets, buckets[b := Some(h)], chains, chains[b := r], b, LRU);
  }

  lemma PushMembers(nodes: Nodes, buckets: seq<Option<nat>>, chains: seq<seq<nat>>, b: nat, h: nat)
    requires TableOk(nodes, buckets, chains) && b < |chains|
    ensures forall n: nat :: InChains(chains[b := [h] + chains[b]], n) <==> n == h || InChains(chains, n)
  {
    MembersAfter(nodes, buckets, chains, b, chains[b := [h] + chains[b]], None, Some(h));
  }

  lemma NextBucket(nodes: Nodes, buckets: seq<Option<nat>>, chains: seq<seq<nat>>, i: nat,
                   newList: seq<Option<nat>>, newChains: seq<seq<nat>>)
    requires i < |chains| && Moving(nodes, buckets, chains, i, |chains[i]|, newList, newChains)
    ensures Moving(nodes, buckets, chains, i + 1, 0, newList, newChains)
  {
    hide Index;
    forall n: nat
      ensures MovedAlready(chains, i + 1, 0, n) <==> MovedAlready(chains, i, |chains[i]|, n)
    {
      assert chains[i][..|chains[i]|] == chains[i];
    }
  }

  lemma MovingEnds(nodes: Nodes, buckets: seq<Option<nat>>, chains: seq<seq<nat>>,
                   newList: seq<Option<nat>>, newChains: seq<seq<nat>>)
    requires Moving(nodes, buckets, chains, |chains|, 0, newList, newChains)
    ensures TableOk(nodes, newList, newChains) && forall n: nat :: InChains(newChains, n) <==> InChains(chains, n)
  {
    forall n: nat
      ensures MovedAlready(chains, |chains|, 0, n) <==> InChains(chains, n)
    {
    }
  }

  // ----- what the cache's operations leave behind -----

  /** An entry numbered below `limit` that is in memory is the entry it was. */
  ghost predicate SameEntries(nodes: Nodes, after: Nodes, limit: nat)
  {
    forall n :: n in after && n < limit ==> n in nodes && SameEntry(nodes[n], after[n])
  }

  ghost predicate SameEntry(h: Handle, g: Handle)
  {
    g.key == h.key && g.hash == h.hash && g.value == h.value && g.charge == h.charge
  }

  ghost predicate IsMember(nodes: Nodes, lru: seq<nat>, key: seq<Byte>, hash: nat, n: nat)
  {
    n in lru && n in nodes && Matches(nodes[n], key, hash)
  }

  /** The old entries without the one that has the key, if there is one. */
  ghost predicate KeptOf(nodes: Nodes, lru: seq<nat>, key: seq<Byte>, hash: nat, kept: seq<nat>)
  {
    || (kept == lru && forall n: nat :: !IsMember(nodes, lru, key, hash, n))
    || (exists w :: IsMember(nodes, lru, key, hash, w) && kept == Without(lru, w))
  }

  lemma IndexIn(lru: seq<nat>, e: nat) returns (i: nat)
    requires e in lru
    ensures i < |lru| && lru[i] == e
  {
    i :| 0 <= i < |lru| && lru[i] == e;
  }

  lemma MembersAllocated(nodes: Nodes, lru: seq<nat>)
    requires Ring(nodes, lru)
    ensures LRU in nodes && Distinct(lru) && forall n :: n in lru ==> n in nodes && n != LRU
  {
    assert RingLink(nodes, lru, 0);
    forall i | 0 <= i < |lru|
      ensures lru[i] in nodes
    {
      assert RingLink(nodes, lru, i);
    }
  }

  lemma RingEnds(nodes: Nodes, lru: seq<nat>)
    requires Ring(nodes, lru)
    ensures Distinct(lru) && LRU in nodes && (nodes[LRU].next == LRU <==> lru == [])
    ensures (lru != [] ==> nodes[LRU].next == lru[0])
  {
    assert RingLink(nodes, lru, 0);
    assert lru != [] ==> lru[0] in lru;
  }

  /** Everything that does not look at the links. */
  lemma CoreKept(nodes: Nodes, after: Nodes, lru: seq<nat>, out: map<nat, nat>, deleted: seq<nat>, nextId: nat)
    requires SameCore(nodes, after) && RefsOk(nodes, lru, out) && IdsOk(nodes, deleted, nextId)
    ensures RefsOk(after, lru, out) && IdsOk(after, deleted, nextId) && Total(after, nextId) == Total(nodes, nextId)
    ensures SameEntries(nodes, after, nextId)
  {
    TotalSame(nodes, after, nextId);
  }

  lemma UniqueKept(nodes: Nodes, after: Nodes, lru: seq<nat>, rest: seq<nat>)
    requires SameCore(nodes, after) && KeysUnique(nodes, lru) && forall n :: n in rest ==> n in lru
    ensures KeysUnique(after, rest)
  {
  }

  /** An entry with one more reference, somewhere else on the list. */
  ghost predicate OneMoreRef(before: Nodes, after: Nodes, e: nat)
  {
    && e in before && before.Keys == after.Keys
    && (forall n :: n in before ==> SameEntry(before[n], after[n]) && after[n].nextHash == before[n].nextHash)
    && (forall n :: n in before ==> after[n].refs == before[n].refs + (if n == e then 1 else 0))
  }

  lemma MovedOn(before: Nodes, counted: Nodes, mid: Nodes, after: Nodes, e: nat)
    requires e in before && counted == before[e := before[e].(refs := before[e].refs + 1)]
    requires SameData(counted, mid) && SameData(mid, after)
    ensures OneMoreRef(before, after, e)
  {
  }

  lemma Touched(before: Nodes, after: Nodes, buckets: seq<Option<nat>>, chains: seq<seq<nat>>, lru: seq<nat>, i: nat,
                out: map<nat, nat>, deleted: seq<nat>, nextId: nat)
    requires i < |lru| && Distinct(lru) && lru[i] != LRU && OneMoreRef(before, after, lru[i])
    requires TableOk(before, buckets, chains) && SameMembers(lru, chains) && KeysUnique(before, lru)
    requires RefsOk(before, lru, out) && IdsOk(before, deleted, nextId)
    ensures var e, r := lru[i], Cut(lru, i) + [lru[i]];
      && TableOk(after, buckets, chains) && SameMembers(r, chains) && KeysUnique(after, r)
      && RefsOk(after, r, out[e := Held(out, e) + 1]) && IdsOk(after, deleted, nextId)
      && Total(after, nextId) == Total(before, nextId) && r == Without(lru, e) + [e] && |r| == |lru|
      && SameEntries(before, after, nextId)
  {
    hide InChains;
    var e, r := lru[i], Cut(lru, i) + [lru[i]];
    TableKept(before, after, buckets, chains);
    hide TableOk;
    CutMembers(lru, i);
    WithoutIsCut(lru, i);
    TotalSame(before, after, nextId);
    hide Total;
    hide Cut;
    hide Without;
    hide Distinct;
    assert forall n: nat :: n in r <==> n in lru;
    TouchedRefs(before, after, lru, r, e, out);
  }

  lemma TouchedRefs(before: Nodes, after: Nodes, lru: seq<nat>, r: seq<nat>, e: nat, out: map<nat, nat>)
    requires e != LRU && OneMoreRef(before, after, e) && RefsOk(before, lru, out)
    requires forall n: nat :: n in r <==> n in lru
    ensures RefsOk(after, r, out[e := Held(out, e) + 1])
  {
  }

  /** A handle given back leaves its entry with one reference too many. */
  lemma Returned(nodes: Nodes, lru: seq<nat>, out: map<nat, nat>, e: nat)
    requires RefsOk(nodes, lru, out) && Held(out, e) > 0
    ensures RefsBut(nodes, lru, out[e := Held(out, e) - 1], e)
  {
    var after := out[e := Held(out, e) - 1];
    assert forall n :: n != e ==> Held(after, n) == Held(out, n);
    forall n | Held(after, n) > 0
      ensures n in nodes && n != LRU
    {
      assert Held(out, n) > 0;
    }
    assert Held(after, e) == Held(out, e) - 1;
    hide Held;
  }

  lemma Unreferenced(nodes: Nodes, buckets: seq<Option<nat>>, chains: seq<seq<nat>>, lru: seq<nat>, out: map<nat, nat>,
                     deleted: seq<nat>, nextId: nat, e: nat)
    requires Ring(nodes, lru) && TableOk(nodes, buckets, chains) && SameMembers(lru, chains) && KeysUnique(nodes, lru)
    requires IdsOk(nodes, deleted, nextId) && RefsBut(nodes, lru, out, e)
    ensures e in nodes && nodes[e].refs > 0
    ensures var h := nodes[e].(refs := nodes[e].refs - 1);
      var after := if h.refs > 0 then nodes[e := h] else nodes - {e};
      && (h.refs > 0 <==> Held(out, e) > 0 || e in lru)
      && Ring(after, lru) && TableOk(after, buckets, chains) && KeysUnique(after, lru) && RefsOk(after, lru, out)
      && IdsOk(after, if h.refs > 0 then deleted else deleted + [e], nextId) && SameEntries(nodes, after, nextId)
      && Total(nodes, nextId) == Total(after, nextId) + (if h.refs > 0 then 0 else h.charge)
  {
    var h := nodes[e].(refs := nodes[e].refs - 1);
    var after := if h.refs > 0 then nodes[e := h] else nodes - {e};
    LetGoRefs(nodes, lru, out, e, h, after);
    LetGoIds(nodes, deleted, nextId, e, h, after);
    assert h.refs == 0 ==> e !in lru;
    hide RefsBut;
    hide RefsOk;
    hide IdsOk;
    hide Total;
    LetGoLinks(nodes, after, buckets, chains, lru, e);
  }

  lemma LetGoRefs(nodes: Nodes, lru: seq<nat>, out: map<nat, nat>, e: nat, h: Handle, after: Nodes)
    requires RefsBut(nodes, lru, out, e) && nodes[e].refs > 0 && h == nodes[e].(refs := nodes[e].refs - 1)
    requires after == if h.refs > 0 then nodes[e := h] else nodes - {e}
    ensures RefsOk(after, lru, out)
  {
  }

  lemma LetGoIds(nodes: Nodes, deleted: seq<nat>, nextId: nat, e: nat, h: Handle, after: Nodes)
    requires IdsOk(nodes, deleted, nextId) && e in nodes && e != LRU && h.charge == nodes[e].charge
    requires after == if h.refs > 0 then nodes[e := h] else nodes - {e}
    ensures IdsOk(after, if h.refs > 0 then deleted else deleted + [e], nextId)
    ensures Total(nodes, nextId) == Total(after, nextId) + (if h.refs > 0 then 0 else h.charge)
  {
    if h.refs > 0 {
      TotalSame(nodes, after, nextId);
    } else {
      TotalWithout(nodes, after, e, nextId);
      assert forall n: nat :: n in deleted + [e] <==> n in deleted || n == e;
    }
  }

  lemma LetGoLinks(nodes: Nodes, after: Nodes, buckets: seq<Option<nat>>, chains: seq<seq<nat>>, lru: seq<nat>, e: nat)
    requires Ring(nodes, lru) && TableOk(nodes, buckets, chains) && SameMembers(lru, chains) && KeysUnique(nodes, lru)
    requires e != LRU && (e !in lru || e in after)
    requires forall n :: n in nodes && (n != e || e in after) ==>
      n in after && after[n] == nodes[n].(refs := after[n].refs)
    requires forall n :: n in after ==> n in nodes
    ensures Ring(after, lru) && TableOk(after, buckets, chains) && KeysUnique(after, lru)
  {
    hide InChains;
    RingKept(nodes, after, lru);
    TableKept(nodes, after, buckets, chains);
  }

  lemma SomeElements(lru: seq<nat>, chains: seq<seq<nat>>)
    requires SameMembers(lru, chains)
    ensures forall n: nat :: InChains(chains, n) ==> |lru| > 0
  {
    forall n: nat | InChains(chains, n)
      ensures |lru| > 0
    {
      assert n in lru;
    }
  }

  lemma ListStays(nodes: Nodes, after: Nodes, lru: seq<nat>)
    requires Ring(nodes, lru) && SameList(nodes, after)
    ensures Ring(after, lru) && SameCore(nodes, after)
  {
    RingKept(nodes, after, lru);
  }

  lemma TableStays(nodes: Nodes, after: Nodes, buckets: seq<Option<nat>>, chains: seq<seq<nat>>)
    requires TableOk(nodes, buckets, chains) && SameData(nodes, after)
    ensures TableOk(after, buckets, chains) && SameCore(nodes, after)
  {
    TableKept(nodes, after, buckets, chains);
  }

  lemma NothingRemoved(nodes: Nodes, chains: seq<seq<nat>>, after: seq<seq<nat>>, lru: seq<nat>, key: seq<Byte>,
                       hash: nat)
    requires SameMembers(lru, chains) && Replaced(nodes, chains, after, None, None, key, hash)
    ensures SameMembers(lru, after) && KeptOf(nodes, lru, key, hash, lru)
  {
    hide InChains;
  }

  lemma RemovedMember(nodes: Nodes, chains: seq<seq<nat>>, after: seq<seq<nat>>, lru: seq<nat>, e: nat, key: seq<Byte>,
                      hash: nat)
    returns (i: nat)
    requires SameMembers(lru, chains) && Replaced(nodes, chains, after, Some(e), None, key, hash)
    ensures i < |lru| && lru[i] == e
  {
    hide InChains;
    i := IndexIn(lru, e);
  }

  /** The entry taken off both structures still has the cache's reference. */
  lemma Detached(nodes: Nodes, lru: seq<nat>, i: nat, out: map<nat, nat>)
    requires i < |lru| && Distinct(lru) && RefsOk(nodes, lru, out) && lru[i] in nodes && lru[i] != LRU
    ensures RefsBut(nodes, Cut(lru, i), out, lru[i])
    ensures lru[i] !in Cut(lru, i) && forall n :: n in Cut(lru, i) ==> n in lru
  {
    CutMembers(lru, i);
  }

  lemma MembersDetached(nodes: Nodes, chains: seq<seq<nat>>, after: seq<seq<nat>>, lru: seq<nat>, i: nat,
                        key: seq<Byte>, hash: nat)
    requires i < |lru| && Distinct(lru) && SameMembers(lru, chains)
    requires Replaced(nodes, chains, after, Some(lru[i]), None, key, hash)
    ensures SameMembers(Cut(lru, i), after) && Cut(lru, i) == Without(lru, lru[i])
    ensures KeptOf(nodes, lru, key, hash, Cut(lru, i))
  {
    hide InChains;
    CutMembers(lru, i);
    WithoutIsCut(lru, i);
    hide Cut;
    hide Without;
    assert IsMember(nodes, lru, key, hash, lru[i]);
  }

  /** The charge of an entry that is gone. */
  function FreedCharge(nodes: Nodes, after: Nodes, n: nat): nat
  {
    if n in after || n !in nodes then 0 else nodes[n].charge
  }

  /** The first `n` entries of the list are gone, and before the last of them went the
      usage was over the capacity. */
  ghost predicate Evicted(nodes: Nodes, all: seq<nat>, after: Nodes, lru: seq<nat>, n: nat, usage: nat, capacity: nat)
  {
    n <= |all| && lru == all[n..] && (n > 0 ==> usage + FreedCharge(nodes, after, all[n - 1]) > capacity)
  }

  /** An old entry goes with the charge it always had. */
  lemma FreedSame(nodes: Nodes, before: Nodes, after: Nodes, n: nat, limit: nat)
    requires SameEntries(nodes, before, limit) && n < limit
    ensures FreedCharge(before, after, n) <= FreedCharge(nodes, after, n)
  {
  }

  /** The same seen from before the new entry `e`, which the caller holds. */
  lemma EvictedSince(nodes: Nodes, added: Nodes, all: seq<nat>, after: Nodes, lru: seq<nat>, n: nat, usage: nat,
                     capacity: nat, e: nat)
    requires SameEntries(nodes, added, e) && e in after && (forall i :: 0 <= i < |all| ==> all[i] < e + 1)
    requires Evicted(added, all, after, lru, n, usage, capacity)
    ensures Evicted(nodes, all, after, lru, n, usage, capacity)
  {
    if n > 0 && all[n - 1] != e {
      FreedSame(nodes, added, after, all[n - 1], e);
    }
  }

  lemma MembersNumbered(nodes: Nodes, lru: seq<nat>, deleted: seq<nat>, nextId: nat)
    requires Ring(nodes, lru) && IdsOk(nodes, deleted, nextId)
    ensures forall i :: 0 <= i < |lru| ==> lru[i] < nextId
  {
    MembersAllocated(nodes, lru);
    forall i | 0 <= i < |lru|
      ensures lru[i] < nextId
    {
      assert lru[i] in lru;
    }
  }

  predicate Carries(h: Handle, key: seq<Byte>, hash: nat, value: nat, charge: nat)
  {
    Matches(h, key, hash) && h.value == value && h.charge == charge
  }

  lemma HandedOut(nodes: Nodes, lru: seq<nat>, out: map<nat, nat>, e: nat)
    requires RefsOk(nodes, lru, out) && Held(out, e) > 0
    ensures e in nodes
  {
  }

  /** malloc gives a node that nothing knows yet. */
  lemma NewNode(nodes: Nodes, chains: seq<seq<nat>>, lru: seq<nat>, deleted: seq<nat>, nextId: nat)
    requires IdsOk(nodes, deleted, nextId) && SameMembers(lru, chains) && forall n :: n in lru ==> n in nodes
    ensures nextId !in nodes && nextId !in lru && !InChains(chains, nextId) && nextId != LRU
  {
    hide InChains;
  }

  /** These entries are in both, the same. */
  ghost predicate Survive(nodes: Nodes, base: Nodes, lru: seq<nat>)
  {
    forall n :: n in lru ==> n in nodes && n in base && SameEntry(nodes[n], base[n])
  }

  lemma RingMembers(nodes: Nodes, lru: seq<nat>)
    requires Ring(nodes, lru)
    ensures Distinct(lru)
  {
  }

  lemma Created(nodes: Nodes, larger: Nodes, after: Nodes, lru: seq<nat>, out: map<nat, nat>, deleted: seq<nat>, e: nat,
                h: Handle)
    requires IdsOk(nodes, deleted, e) && RefsOk(nodes, lru, out) && e !in nodes && e !in lru && e != LRU
    requires h.refs == 2 && larger == nodes[e := h] && SameData(larger, after) && forall n :: n in lru ==> n in nodes
    ensures IdsOk(after, deleted, e + 1) && RefsOk(after, lru + [e], out[e := 1])
    ensures Total(after, e + 1) == Total(nodes, e) + h.charge
    ensures SameEntries(nodes, after, e) && Survive(nodes, after, lru) && e in after && SameEntry(h, after[e])
  {
    TotalSame(nodes, after, e);
    TotalNext(after, e);
    hide Total;
    CreatedRefs(nodes, after, lru, out, e);
    hide RefsOk;
  }

  lemma CreatedRefs(nodes: Nodes, after: Nodes, lru: seq<nat>, out: map<nat, nat>, e: nat)
    requires RefsOk(nodes, lru, out) && e !in nodes && e !in lru && e != LRU && e in after && after[e].refs == 2
    requires after.Keys == nodes.Keys + {e} && forall n :: n in nodes ==> after[n].refs == nodes[n].refs
    ensures RefsOk(after, lru + [e], out[e := 1])
  {
    var more := out[e := 1];
    assert forall n: nat :: n in lru + [e] <==> n in lru || n == e;
    assert forall n :: n != e ==> Held(more, n) == Held(out, n);
    forall n | Held(more, n) > 0
      ensures n in after && n != LRU
    {
      assert n == e || Held(out, n) > 0;
    }
    assert Held(more, e) == 1;
    hide Held;
  }

  lemma TotalNext(nodes: Nodes, e: nat)
    requires e in nodes && e != LRU
    ensures Total(nodes, e + 1) == Total(nodes, e) + nodes[e].charge
  {
    hide Index;
    assert (e + 1) - 1 == e;
  }

  lemma TableWith(nodes: Nodes, larger: Nodes, after: Nodes, buckets: seq<Option<nat>>, chains: seq<seq<nat>>, e: nat)
    requires TableOk(nodes, buckets, chains) && e !in nodes && SameData(larger, after)
    requires larger.Keys == nodes.Keys + {e} && forall n :: n in nodes ==> larger[n] == nodes[n]
    ensures TableOk(after, buckets, chains)
  {
    TableKept(nodes, after, buckets, chains);
  }

  /** The entry that had the key, if any, leaves; the new one comes in as the newest. */
  lemma Entered(nodes: Nodes, base: Nodes, chains: seq<seq<nat>>, after: seq<seq<nat>>, lru: seq<nat>, was: Option<nat>,
                e: nat,
                key: seq<Byte>, hash: nat) returns (kept: seq<nat>, i: nat)
    requires SameMembers(lru, chains) && Distinct(lru) && KeysUnique(nodes, lru) && e !in lru
    requires Survive(nodes, base, lru)
    requires e in base && Matches(base[e], key, hash) && Replaced(base, chains, after, was, Some(e), key, hash)
    ensures SameMembers(kept + [e], after) && KeysUnique(base, kept + [e]) && KeptOf(nodes, lru, key, hash, kept)
    ensures was.None? ==> kept == lru
    ensures was.Some? ==> i < |lru| && lru[i] == was.value && Cut(lru + [e], i) == kept + [e] && was.value in base
  {
    hide InChains;
    i := 0;
    if was.None? {
      kept := lru;
    } else {
      i := IndexIn(lru, was.value);
      kept := Without(lru, was.value);
      WithoutIsCut(lru, i);
      CutMembers(lru, i);
      assert Cut(lru + [e], i) == kept + [e];
      assert IsMember(nodes, lru, key, hash, was.value);
      assert Matches(nodes[was.value], key, hash);
    }
    hide Without;
    hide Cut;
    assert forall n: nat :: n in kept + [e] <==> n == e || (n in lru && Some(n) != was);
    EnteredUnique(nodes, base, lru, kept, was, e, key, hash) by {
      assert forall n: nat :: was.None? && n in lru ==> !Matches(base[n], key, hash);
    }
  }

  lemma EnteredUnique(nodes: Nodes, base: Nodes, lru: seq<nat>, kept: seq<nat>, was: Option<nat>, e: nat,
                      key: seq<Byte>, hash: nat)
    requires KeysUnique(nodes, lru) && forall n :: n in lru ==> n in nodes && n in base && SameEntry(nodes[n], base[n])
    requires forall n: nat :: n in kept + [e] <==> n == e || (n in lru && Some(n) != was)
    requires e in base && Matches(base[e], key, hash)
    requires was.Some? ==> was.value in lru && Matches(nodes[was.value], key, hash)
    requires was.None? ==> forall n :: n in lru ==> !Matches(base[n], key, hash)
    ensures KeysUnique(base, kept + [e])
  {
    forall n | n in kept && n != e
      ensures n in lru && !Matches(base[n], key, hash)
    {
      assert n in kept + [e];
    }
  }

  lemma TheOne(nodes: Nodes, lru: seq<nat>, chains: seq<seq<nat>>, after: seq<seq<nat>>, was: Option<nat>,
               key: seq<Byte>,
               hash: nat, e: nat)
    requires KeysUnique(nodes, lru) && SameMembers(lru, chains) && Replaced(nodes, chains, after, was, None, key, hash)
    requires e in lru && e in nodes && key == nodes[e].key && hash == nodes[e].hash
    ensures was == Some(e)
  {
    hide InChains;
    assert InChains(chains, e) && Matches(nodes[e], key, hash);
    assert was.Some? ==> was.value in lru;
  }

  lemma SameAsBefore(nodes: Nodes, limit: nat)
    ensures SameEntries(nodes, nodes, limit)
  {
  }

  /** With no handle out, the entries are those on the list, one reference each. */
  lemma OnlyListed(nodes: Nodes, lru: seq<nat>, out: map<nat, nat>)
    requires RefsOk(nodes, lru, out) && Ring(nodes, lru) && forall n: nat :: Held(out, n) == 0
    ensures forall n :: n in nodes <==> n == LRU || n in lru
    ensures forall n :: n in lru ==> nodes[n].refs == 1
  {
    MembersAllocated(nodes, lru);
  }

  /** The first `k` entries of the list are freed, the others as they were. */
  ghost predicate Leaving(all: Nodes, nodes: Nodes, lru: seq<nat>, k: nat)
  {
    && Ring(all, lru) && k <= |lru| && (forall n :: n in lru ==> n in all && all[n].refs == 1)
    && (forall n :: n in nodes <==>
      n == LRU || n in lru[k..]) && (forall n :: n in nodes ==> n in all && nodes[n] == all[n])
  }

  lemma DestroyStarts(nodes: Nodes, lru: seq<nat>)
    requires Ring(nodes, lru) && (forall n :: n in nodes <==> n == LRU || n in lru)
    requires forall n :: n in lru ==> nodes[n].refs == 1
    ensures Leaving(nodes, nodes, lru, 0)
  {
    assert lru[0..] == lru;
  }

  lemma NextToLeave(all: Nodes, nodes: Nodes, lru: seq<nat>, k: nat, e: nat)
    requires Leaving(all, nodes, lru, k) && e == Around(lru, k + 1) && e != LRU
    ensures k < |lru| && e in nodes && nodes[e].refs == 1 && nodes[e].next == Around(lru, k + 2)
    ensures Leaving(all, nodes - {e}, lru, k + 1)
  {
    assert RingLink(all, lru, k + 1);
    assert lru[k..][0] == e;
    assert lru[k..] == [e] + lru[k + 1..];
    assert forall n: nat :: n in lru[k + 1..] ==> n in lru && n != e;
  }

  lemma LastRef(nodes: Nodes, deleted: seq<nat>, nextId: nat, e: nat)
    requires IdsOk(nodes, deleted, nextId) && e in nodes && e != LRU && nodes[e].refs == 1
    ensures IdsOk(nodes - {e}, deleted + [e], nextId)
    ensures Total(nodes, nextId) == Total(nodes - {e}, nextId) + nodes[e].charge
  {
    LetGoIds(nodes, deleted, nextId, e, nodes[e].(refs := 0), nodes - {e});
  }

  lemma InsideList(lru: seq<nat>, k: nat)
    requires LRU !in lru
    ensures k < |lru| ==> Around(lru, k + 1) != LRU
  {
    if k < |lru| {
      assert lru[k] in lru;
    }
  }

  lemma LeftBehind(all: Nodes, nodes: Nodes, lru: seq<nat>, k: nat, deleted: seq<nat>, nextId: nat)
    requires Leaving(all, nodes, lru, k) && Around(lru, k + 1) == LRU && IdsOk(nodes, deleted, nextId)
    ensures nodes.Keys == {LRU} && Total(nodes, nextId) == 0 && Distinct(deleted)
    ensures forall n: nat :: n in deleted <==> LRU < n < nextId
  {
    InsideList(lru, k);
    NothingCharged(nodes, nextId);
  }

  lemma {:induction false} NothingCharged(nodes: Nodes, n: nat)
    requires nodes.Keys == {LRU}
    ensures Total(nodes, n) == 0
  {
    if n > 0 {
      NothingCharged(nodes, n - 1);
    }
  }

  /** At any time the deleter has run, once, for exactly the entries that neither
      the cache nor a caller holds; and the charges of the others add up to the usage. */
  lemma DeletersRunOnce(nodes: Nodes, lru: seq<nat>, out: map<nat, nat>, deleted: seq<nat>, nextId: nat, n: nat)
    requires RefsOk(nodes, lru, out) && IdsOk(nodes, deleted, nextId) && Ring(nodes, lru) && LRU < n < nextId
    ensures n in deleted <==> n !in lru && Held(out, n) == 0
    ensures n in deleted ==>
      exists i :: 0 <= i < |deleted| && deleted[i] == n && forall j :: 0 <= j < |deleted| && deleted[j] == n ==> j == i
  {
    MembersAllocated(nodes, lru);
    if n in deleted {
      var i := IndexIn(deleted, n);
      assert forall j :: 0 <= j < |deleted| && deleted[j] == n ==> j == i;
    }
  }
}
