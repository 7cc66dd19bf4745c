/** The skip list behind the memtable (db/skiplist.h): nodes in a heap, linked at
    up to twelve levels, with a single writer and readers that take no lock. */
module SkipLists {
  import opened Wrappers
  import opened Keys
  import MemTable

  const MAX_HEIGHT := 12
  const HEAD: nat := 0

  /** `next[l]` is the successor at level `l`; none at the end. */
  datatype Node = Node(entry: Entry, next: seq<Option<nat>>)

  type Nodes = map<nat, Node>

  function EntriesOf(nodes: Nodes, list: seq<nat>): (s: seq<Entry>)
    requires forall n :: n in list ==> n in nodes
    ensures |s| == |list| && forall i :: 0 <= i < |list| ==> s[i] == nodes[list[i]].entry
  {
    seq(|list|, i requires 0 <= i < |list| => nodes[list[i]].entry)
  }

  // ----- what the links spell out -----

  /** The node before position `i` of a level. */
  function At(list: seq<nat>, i: nat): nat
    requires i <= |list|
  {
    if i == 0 then HEAD else list[i - 1]
  }

  function After(list: seq<nat>, i: nat): Option<nat>
    requires i <= |list|
  {
    if i < |list| then Some(list[i]) else None
  }

  ghost predicate LinkOk(nodes: Nodes, l: nat, list: seq<nat>, i: nat)
    requires i <= |list|
  {
    At(list, i) in nodes && l < |nodes[At(list, i)].next| && nodes[At(list, i)].next[l] == After(list, i)
  }

  /** Following the links of level `l` from the head visits exactly `list`. */
  ghost predicate Chain(nodes: Nodes, l: nat, list: seq<nat>)
  {
    forall i :: 0 <= i <= |list| ==> LinkOk(nodes, l, list, i)
  }

  ghost predicate InKeyOrder(nodes: Nodes, list: seq<nat>)
  {
    && (forall n :: n in list ==> n in nodes && n != HEAD)
    && (forall i, j :: 0 <= i < j < |list| ==> EntryBefore(nodes[list[i]].entry, nodes[list[j]].entry))
  }

  /** Every level is sorted, and is part of the level below it. */
  ghost predicate Shape(nodes: Nodes, lists: seq<seq<nat>>)
  {
    && |lists| == MAX_HEIGHT
    && (forall l :: 0 <= l < MAX_HEIGHT ==> Chain(nodes, l, lists[l]) && InKeyOrder(nodes, lists[l]))
    && (forall l :: 0 <= l < MAX_HEIGHT - 1 ==> PartOfLower(lists, l))
  }

  ghost predicate PartOfLower(lists: seq<seq<nat>>, l: nat)
    requires l + 1 < |lists|
  {
    forall n :: n in lists[l + 1] ==> n in lists[l]
  }

  lemma {:induction false} InLowerLevels(nodes: Nodes, lists: seq<seq<nat>>, n: nat, l: nat, m: nat)
    requires Shape(nodes, lists) && m <= l < MAX_HEIGHT && n in lists[l]
    ensures n in lists[m]
  {
    if m < l {
      assert PartOfLower(lists, l - 1);
      InLowerLevels(nodes, lists, n, l - 1, m);
    }
  }

  /** Where a target goes in a level: right after the last node before it. */
  ghost predicate Splits(nodes: Nodes, list: seq<nat>, target: IKey, p: nat)
  {
    && InKeyOrder(nodes, list) && p <= |list|
    && (forall i :: 0 <= i < p ==> Before(KeyOf(nodes[list[i]].entry), target))
    && (forall i :: p <= i < |list| ==> !Before(KeyOf(nodes[list[i]].entry), target))
  }

  lemma SplitsAt(nodes: Nodes, list: seq<nat>, target: IKey, p: nat)
    requires InKeyOrder(nodes, list) && p <= |list|
    requires p > 0 ==> Before(KeyOf(nodes[list[p - 1]].entry), target)
    requires p < |list| ==> !Before(KeyOf(nodes[list[p]].entry), target)
    ensures Splits(nodes, list, target, p) && p == FirstAtOrAfter(EntriesOf(nodes, list), target)
  {
    forall i | 0 <= i < |list|
      ensures Before(KeyOf(nodes[list[i]].entry), target) <==> i < p
    {
      if i < p - 1 {
        assert EntryBefore(nodes[list[i]].entry, nodes[list[p - 1]].entry);
      } else if i > p {
        assert EntryBefore(nodes[list[p]].entry, nodes[list[i]].entry);
      }
    }
    FirstIsSplit(EntriesOf(nodes, list), target, p);
  }

  lemma KeyIsFirst(s: seq<Entry>, target: IKey, i: nat)
    requires StrictlySorted(s) && i < |s| && KeyOf(s[i]) == target
    ensures FirstAtOrAfter(s, target) == i
  {
    forall j | 0 <= j < i
      ensures Before(KeyOf(s[j]), target)
    {
      assert EntryBefore(s[j], s[i]);
    }
    FirstIsSplit(s, target, i);
  }

  // ----- the stores of Insert -----

  function SetNext(nodes: Nodes, n: nat, l: nat, to: Option<nat>): Nodes
    requires n in nodes && l < |nodes[n].next|
  {
    nodes[n := nodes[n].(next := nodes[n].next[l := to])]
  }

  /** A node that no link leads to yet. */
  ghost predicate Allocates(nodes: Nodes, lists: seq<seq<nat>>, x: nat, e: Entry, height: nat, after: Nodes)
  {
    x !in nodes && 0 < height <= MAX_HEIGHT && after == nodes[x := Node(e, seq(height, i => None))]
  }

  /** A link of a node that is not in that level's list. */
  ghost predicate StoresOwn(nodes: Nodes, lists: seq<seq<nat>>, x: nat, l: nat, to: Option<nat>, after: Nodes)
  {
    && |lists| == MAX_HEIGHT && l < MAX_HEIGHT && x in nodes && l < |nodes[x].next| && x != HEAD && x !in lists[l]
    && after == SetNext(nodes, x, l, to)
  }

  function Linked(list: seq<nat>, p: nat, x: nat): (r: seq<nat>)
    requires p <= |list|
    ensures |r| == |list| + 1 && r[p] == x
    ensures forall i :: 0 <= i < p ==> r[i] == list[i]
    ensures forall i :: p <= i < |list| ==> r[i + 1] == list[i]
    ensures forall n :: n in r <==> n in list || n == x
  {
    assert list == list[..p] + list[p..];
    list[..p] + [x] + list[p..]
  }

  /** The release store that puts `x` into level `l`, after position `p`. */
  ghost predicate Publishes(nodes: Nodes, lists: seq<seq<nat>>, x: nat, l: nat, p: nat, after: Nodes)
  {
    && |lists| == MAX_HEIGHT && l < MAX_HEIGHT && p <= |lists[l]|
    && x in nodes && x != HEAD && x !in lists[l] && l < |nodes[x].next|
    && (l > 0 ==> x in lists[l - 1])
    && Splits(nodes, lists[l], KeyOf(nodes[x].entry), p)
    && (forall n :: n in lists[l] ==> KeyOf(nodes[n].entry) != KeyOf(nodes[x].entry))
    && nodes[x].next[l] == After(lists[l], p)
    && At(lists[l], p) in nodes && l < |nodes[At(lists[l], p)].next|
    && after == SetNext(nodes, At(lists[l], p), l, Some(x))
  }

  /** Entries never change, and nothing is ever taken out of a level. */
  ghost predicate Grows(nodes: Nodes, lists: seq<seq<nat>>, after: Nodes, longer: seq<seq<nat>>)
  {
    && (forall n :: n in nodes ==> n in after && after[n].entry == nodes[n].entry)
    && |longer| == |lists| == MAX_HEIGHT
    && (forall l, n :: 0 <= l < MAX_HEIGHT && n in lists[l] ==> n in longer[l])
  }

  lemma AllocateKeeps(nodes: Nodes, lists: seq<seq<nat>>, x: nat, e: Entry, height: nat, after: Nodes)
    requires Shape(nodes, lists) && Allocates(nodes, lists, x, e, height, after)
    ensures Shape(after, lists) && Grows(nodes, lists, after, lists)
    ensures forall l :: 0 <= l < MAX_HEIGHT ==> x !in lists[l]
  {
    forall l | 0 <= l < MAX_HEIGHT
      ensures Chain(after, l, lists[l]) && InKeyOrder(after, lists[l]) && x !in lists[l]
    {
      forall i | 0 <= i <= |lists[l]|
        ensures LinkOk(after, l, lists[l], i)
      {
        assert LinkOk(nodes, l, lists[l], i);
      }
    }
  }

  lemma StoreOwnKeeps(nodes: Nodes, lists: seq<seq<nat>>, x: nat, l: nat, to: Option<nat>, after: Nodes)
    requires Shape(nodes, lists) && StoresOwn(nodes, lists, x, l, to, after)
    ensures Shape(after, lists) && Grows(nodes, lists, after, lists)
  {
    forall m | 0 <= m < MAX_HEIGHT
      ensures Chain(after, m, lists[m]) && InKeyOrder(after, lists[m])
    {
      forall i | 0 <= i <= |lists[m]|
        ensures LinkOk(after, m, lists[m], i)
      {
        assert LinkOk(nodes, m, lists[m], i);
      }
    }
  }

  lemma PublishKeeps(nodes: Nodes, lists: seq<seq<nat>>, x: nat, l: nat, p: nat, after: Nodes)
    requires Shape(nodes, lists) && Publishes(nodes, lists, x, l, p, after)
    ensures var longer := lists[l := Linked(lists[l], p, x)];
      Shape(after, longer) && Grows(nodes, lists, after, longer)
  {
    var longer := lists[l := Linked(lists[l], p, x)];
    forall m | 0 <= m < MAX_HEIGHT
      ensures Chain(after, m, longer[m]) && InKeyOrder(after, longer[m])
    {
      if m == l {
        PublishChain(nodes, lists, x, l, p, after);
      } else {
        forall i | 0 <= i <= |lists[m]|
          ensures LinkOk(after, m, lists[m], i)
        {
          assert LinkOk(nodes, m, lists[m], i);
        }
      }
    }
    forall m | 0 <= m < MAX_HEIGHT - 1
      ensures PartOfLower(longer, m)
    {
      assert PartOfLower(lists, m);
    }
  }

  lemma PublishChain(nodes: Nodes, lists: seq<seq<nat>>, x: nat, l: nat, p: nat, after: Nodes)
    requires Shape(nodes, lists) && Publishes(nodes, lists, x, l, p, after)
    ensures Chain(after, l, Linked(lists[l], p, x)) && InKeyOrder(after, Linked(lists[l], p, x))
  {
    LinkedInOrder(nodes, lists[l], p, x);
    LinkedChain(nodes, lists[l], l, p, x, after);
  }

  lemma LinkedChain(nodes: Nodes, list: seq<nat>, l: nat, p: nat, x: nat, after: Nodes)
    requires Chain(nodes, l, list) && InKeyOrder(nodes, list) && p <= |list| && x != HEAD && x !in list
    requires x in nodes && l < |nodes[x].next| && nodes[x].next[l] == After(list, p)
    requires At(list, p) in nodes && l < |nodes[At(list, p)].next| && after == SetNext(nodes, At(list, p), l, Some(x))
    ensures Chain(after, l, Linked(list, p, x))
  {
    var r := Linked(list, p, x);
    forall i | 0 <= i <= |r|
      ensures LinkOk(after, l, r, i)
    {
      if i < p {
        assert LinkOk(nodes, l, list, i);
        NodesApart(nodes, list, i, p);
        assert At(r, i) == At(list, i) && After(r, i) == After(list, i);
      } else if i == p {
        assert At(r, i) == At(list, p) && After(r, i) == Some(x);
      } else if i == p + 1 {
        assert At(r, i) == x && After(r, i) == After(list, p);
      } else {
        assert LinkOk(nodes, l, list, i - 1);
        NodesApart(nodes, list, p, i - 1);
        assert At(r, i) == At(list, i - 1) && After(r, i) == After(list, i - 1);
      }
    }
  }

  lemma LinkedInOrder(nodes: Nodes, list: seq<nat>, p: nat, x: nat)
    requires x in nodes && x != HEAD && Splits(nodes, list, KeyOf(nodes[x].entry), p)
    requires forall n :: n in list ==> KeyOf(nodes[n].entry) != KeyOf(nodes[x].entry)
    ensures InKeyOrder(nodes, Linked(list, p, x))
  {
    var r := Linked(list, p, x);
    forall i, j | 0 <= i < j < |r|
      ensures EntryBefore(nodes[r[i]].entry, nodes[r[j]].entry)
    {
      var a, b := if i <= p then i else i - 1, if j <= p then j else j - 1;
      if i != p && j != p {
        assert EntryBefore(nodes[list[a]].entry, nodes[list[b]].entry);
      } else if i == p {
        assert list[b] in list;
      }
    }
  }

  lemma NodesApart(nodes: Nodes, list: seq<nat>, i: nat, j: nat)
    requires InKeyOrder(nodes, list) && i < j <= |list|
    ensures At(list, i) != At(list, j)
  {
    assert i > 0 ==> EntryBefore(nodes[list[i - 1]].entry, nodes[list[j - 1]].entry);
    assert list[j - 1] in list;
  }

  /** The predecessor of the target at a level. */
  ghost predicate IsPrev(nodes: Nodes, list: seq<nat>, target: IKey, x: nat)
  {
    exists p :: Splits(nodes, list, target, p) && x == At(list, p)
  }

  /** One store of Insert: a new node, a link of its own, or its publication. */
  ghost predicate IsStore(nodes: Nodes, lists: seq<seq<nat>>, after: Nodes, longer: seq<seq<nat>>)
  {
    || (longer == lists && exists x, e, height :: Allocates(nodes, lists, x, e, height, after))
    || (longer == lists && exists x, l, to :: StoresOwn(nodes, lists, x, l, to, after))
    || (exists x: nat, l: nat, p: nat ::
      Publishes(nodes, lists, x, l, p, after) && longer == lists[l := Linked(lists[l], p, x)])
  }

  /** After every single store each level is sorted and part of the one below. */
  lemma StoreKeeps(nodes: Nodes, lists: seq<seq<nat>>, after: Nodes, longer: seq<seq<nat>>)
    requires Shape(nodes, lists) && IsStore(nodes, lists, after, longer)
    ensures Shape(after, longer) && Grows(nodes, lists, after, longer)
  {
    hide Shape;
    hide Grows;
    if x, e, height :| longer == lists && Allocates(nodes, lists, x, e, height, after) {
      AllocateKeeps(nodes, lists, x, e, height, after);
    } else if x, l, to :| longer == lists && StoresOwn(nodes, lists, x, l, to, after) {
      StoreOwnKeeps(nodes, lists, x, l, to, after);
    } else {
      var x: nat, l: nat, p: nat :|
        Publishes(nodes, lists, x, l, p, after) && longer == lists[l := Linked(lists[l], p, x)];
      PublishKeeps(nodes, lists, x, l, p, after);
    }
  }

  class SkipList {
    var nodes: Nodes
    var maxHeight: nat
    var arena: nat          // the next node to hand out
    ghost var lists: seq<seq<nat>>

    constructor ()
      ensures Valid() && Contents() == []
    {
      nodes := map[HEAD := Node(Entry(0.0, 0, Delete), seq(MAX_HEIGHT, i => None))];
      maxHeight, arena := 1, 1;
      lists := seq(MAX_HEIGHT, i => []);
    }

    ghost predicate Valid()
      reads this
    {
      && Shape(nodes, lists) && 1 <= maxHeight <= MAX_HEIGHT
      && (forall l :: maxHeight <= l < MAX_HEIGHT ==> lists[l] == [])
      && HEAD in nodes && |nodes[HEAD].next| == MAX_HEIGHT && (forall n :: n in nodes ==> n < arena)
    }

    ghost function Contents(): seq<Entry>
      requires Valid()
      reads this
    {
      EntriesOf(nodes, lists[0])
    }

    predicate KeyIsAfterNode(target: IKey, n: Option<nat>)
      requires n.Some? ==> n.value in nodes
      reads this
    {
      n.Some? && Before(KeyOf(nodes[n.value].entry), target)
    }

    /** The first node at or after the target, and the nodes before it on every
        level in use. */
    method FindGreaterOrEqual(target: IKey) returns (next: Option<nat>, prev: seq<nat>)
      requires Valid()
      ensures |prev| == MAX_HEIGHT && forall l :: 0 <= l < maxHeight ==> IsPrev(nodes, lists[l], target, prev[l])
      ensures next == After(lists[0], FirstAtOrAfter(Contents(), target))
    {
      var x, level := HEAD, maxHeight - 1;
      ghost var i: nat := 0;
      prev := seq(MAX_HEIGHT, j => HEAD);
      while true
        invariant 0 <= level < maxHeight && |prev| == MAX_HEIGHT
        invariant Reached(level, x, i, target)
        invariant forall l :: level < l < maxHeight ==> IsPrev(nodes, lists[l], target, prev[l])
        decreases level, |lists[level]| - i
      {
        assert LinkOk(nodes, level, lists[level], i);
        next := nodes[x].next[level];
        if KeyIsAfterNode(target, next) {
          x, i := next.value, i + 1;
        } else {
          SplitsAt(nodes, lists[level], target, i);
          prev := prev[level := x];
          if level == 0 {
            return;
          }
          i := LowerIndex(level, x, i, target);
          level := level - 1;
        }
      }
    }

    /** `x` is the node before position `i` of a level, and still before the target. */
    ghost predicate Reached(level: nat, x: nat, i: nat, target: IKey)
      requires |lists| == MAX_HEIGHT && level < MAX_HEIGHT
      reads this
    {
      && i <= |lists[level]| && x == At(lists[level], i)
      && (i > 0 ==> x in nodes && Before(KeyOf(nodes[x].entry), target))
    }

    lemma LowerIndex(level: nat, x: nat, i: nat, target: IKey) returns (j: nat)
      requires Valid() && 0 < level < MAX_HEIGHT && Reached(level, x, i, target)
      ensures Reached(level - 1, x, j, target)
    {
      j := SameNodeLower(level, x, i);
      assert i > 0 ==> x in lists[level];
    }

    /** A node of a level is also in the level below. */
    lemma SameNodeLower(level: nat, x: nat, i: nat) returns (j: nat)
      requires Valid() && 0 < level < MAX_HEIGHT && i <= |lists[level]| && x == At(lists[level], i)
      ensures j <= |lists[level - 1]| && x == At(lists[level - 1], j) && (i == 0 ==> j == 0)
    {
      j := 0;
      if i > 0 {
        assert x in lists[level];
        InLowerLevels(nodes, lists, x, level, level - 1);
        var lower := lists[level - 1];
        var k :| 0 <= k < |lower| && lower[k] == x;
        j := k + 1;
      }
    }

    /** The last node before the target, or the head. */
    method FindLessThan(target: IKey) returns (x: nat)
      requires Valid()
      ensures x == At(lists[0], FirstAtOrAfter(Contents(), target))
    {
      x := HEAD;
      var level := maxHeight - 1;
      ghost var i: nat := 0;
      while true
        invariant 0 <= level < maxHeight && Reached(level, x, i, target)
        decreases level, |lists[level]| - i
      {
        assert LinkOk(nodes, level, lists[level], i);
        var next := nodes[x].next[level];
        if next.None? || !Before(KeyOf(nodes[next.value].entry), target) {
          if level == 0 {
            SplitsAt(nodes, lists[0], target, i);
            return;
          }
          i := LowerIndex(level, x, i, target);
          level := level - 1;
        } else {
          x, i := next.value, i + 1;
        }
      }
    }

    method FindLast() returns (x: nat)
      requires Valid()
      ensures x == At(lists[0], |lists[0]|)
    {
      x := HEAD;
      var level := maxHeight - 1;
      ghost var i: nat := 0;
      while true
        invariant 0 <= level < maxHeight && i <= |lists[level]| && x == At(lists[level], i)
        decreases level, |lists[level]| - i
      {
        assert LinkOk(nodes, level, lists[level], i);
        var next := nodes[x].next[level];
        if next.None? {
          if level == 0 {
            return;
          }
          i := SameNodeLower(level, x, i);
          level := level - 1;
        } else {
          x, i := next.value, i + 1;
        }
      }
    }

    /** Insert: find the places, then link the new node level by level from below. */
    method Insert(e: Entry, height: nat)
      requires Valid() && 1 <= height <= MAX_HEIGHT
      requires forall i :: 0 <= i < |Contents()| ==> KeyOf(Contents()[i]) != KeyOf(e)
      modifies this
      ensures Valid() && Contents() == MemTable.Add(old(Contents()), e)
      ensures Grows(old(nodes), old(lists), nodes, lists)
    {
      hide Shape;
      hide IsPrev;
      var next, prev := FindGreaterOrEqual(KeyOf(e));
      if height > maxHeight {
        prev := RaiseHeight(KeyOf(e), height, prev);
      }
      var x := NewNode(e, height, prev);
      LinkAll(x, height, prev, e);
    }

    method LinkAll(x: nat, height: nat, prev: seq<nat>, e: Entry)
      requires Valid() && 1 <= height <= maxHeight && Linking(nodes, lists, x, 0, height, e)
      requires |prev| == MAX_HEIGHT && forall m :: 0 <= m < height ==> IsPrev(nodes, lists[m], KeyOf(e), prev[m])
      modifies this`nodes, this`lists
      ensures Valid() && Contents() == MemTable.Add(old(Contents()), e)
      ensures Grows(old(nodes), old(lists), nodes, lists)
    {
      var l := 0;
      GrowsFrom(nodes, lists);
      hide Shape;
      hide Linking;
      hide Grows;
      hide Splits;
      hide IsPrev;
      hide EntriesOf;
      while l < height
        invariant 0 <= l <= height && Valid() && Linking(nodes, lists, x, l, height, e)
        invariant |lists| == MAX_HEIGHT && forall m :: l <= m < height ==> IsPrev(nodes, lists[m], KeyOf(e), prev[m])
        invariant Grows(old(nodes), old(lists), nodes, lists)
        invariant Contents() == if l == 0 then old(Contents()) else MemTable.Add(old(Contents()), e)
      {
        ghost var before, shorter, contents := nodes, lists, Contents();
        LinkLevel(x, l, prev[l], height, e);
        GrowsOn(old(nodes), old(lists), before, shorter, nodes, lists);
        forall m | l < m < height
          ensures IsPrev(nodes, lists[m], KeyOf(e), prev[m])
        {
          EntriesStay(before, shorter, nodes, lists);
          LinkedElsewhere(before, shorter, lists, l, x, e, m);
          PrevKept(before, nodes, lists[m], KeyOf(e), prev[m]);
        }
        hide LinkedAt;
        LinkingNode(nodes, lists, x, l + 1, height, e);
        ContentsStep(before, shorter, nodes, lists, l, x, e);
        l := l + 1;
      }
    }

    /** The levels above the old height are empty, so the head comes before everything. */
    method RaiseHeight(target: IKey, height: nat, prev: seq<nat>) returns (r: seq<nat>)
      requires Valid() && maxHeight < height <= MAX_HEIGHT
      requires |prev| == MAX_HEIGHT && forall l :: 0 <= l < maxHeight ==> IsPrev(nodes, lists[l], target, prev[l])
      modifies this`maxHeight
      ensures Valid() && maxHeight == height
      ensures |r| == MAX_HEIGHT && forall l :: 0 <= l < height ==> IsPrev(nodes, lists[l], target, r[l])
    {
      r := prev;
      var i := maxHeight;
      while i < height
        invariant maxHeight <= i <= height && |r| == MAX_HEIGHT
        invariant forall l :: 0 <= l < i ==> IsPrev(nodes, lists[l], target, r[l])
      {
        r := r[i := HEAD];
        assert Splits(nodes, lists[i], target, 0);
        i := i + 1;
      }
      maxHeight := height;
    }

    method NewNode(e: Entry, height: nat, ghost prev: seq<nat>) returns (x: nat)
      requires Valid() && 1 <= height <= maxHeight
      requires forall i :: 0 <= i < |Contents()| ==> KeyOf(Contents()[i]) != KeyOf(e)
      requires |prev| == MAX_HEIGHT && forall l :: 0 <= l < height ==> IsPrev(nodes, lists[l], KeyOf(e), prev[l])
      modifies this`nodes, this`arena
      ensures Valid() && Linking(nodes, lists, x, 0, height, e) && Grows(old(nodes), lists, nodes, lists)
      ensures Contents() == old(Contents())
      ensures forall l :: 0 <= l < height ==> IsPrev(nodes, lists[l], KeyOf(e), prev[l])
      ensures IsStore(old(nodes), lists, nodes, lists)
    {
      ghost var before, all := nodes, Contents();
      assert forall i :: 0 <= i < |all| ==> KeyOf(all[i]) != KeyOf(e);
      x := arena;
      arena := arena + 1;
      nodes := nodes[x := Node(e, seq(height, i => None))];
      assert Allocates(before, lists, x, e, height, nodes);
      AllocateKeeps(before, lists, x, e, height, nodes);
      forall l, n | 0 <= l < MAX_HEIGHT && n in lists[l]
        ensures KeyOf(nodes[n].entry) != KeyOf(e)
      {
        InLowerLevels(before, lists, n, l, 0);
        var k :| 0 <= k < |lists[0]| && lists[0][k] == n;
        assert all[k] == before[n].entry;
      }
      forall l | 0 <= l < height
        ensures IsPrev(nodes, lists[l], KeyOf(e), prev[l])
      {
        PrevKept(before, nodes, lists[l], KeyOf(e), prev[l]);
      }
    }

    /** Insert's loop body: the new node's own link, then its predecessor's. */
    method LinkLevel(x: nat, l: nat, prev: nat, height: nat, e: Entry)
      requires Valid() && l < height <= maxHeight && Linking(nodes, lists, x, l, height, e)
      requires IsPrev(nodes, lists[l], KeyOf(e), prev)
      modifies this`nodes, this`lists
      ensures Valid() && Linking(nodes, lists, x, l + 1, height, e)
      ensures LinkedAt(old(nodes), old(lists), lists, l, x, e)
      ensures Grows(old(nodes), old(lists), nodes, lists)
    {
      ghost var before, shorter := nodes, lists;
      ghost var p := PrevHasLink(nodes, lists, x, l, height, e, prev);
      hide Splits;
      hide Linking;
      hide Shape;
      hide Grows;
      hide CanLink;
      hide IsPrev;
      hide Linked;
      StoreOwnLink(x, l, prev, height, e, p);
      ghost var between := nodes;
      Publish(x, l, prev, height, e, p);
      GrowsOn(before, shorter, between, shorter, nodes, lists);
      assert Splits(before, shorter[l], KeyOf(e), p) && lists[l] == Linked(shorter[l], p, x);
    }

    /** NoBarrier_SetNext. */
    method StoreOwnLink(x: nat, l: nat, prev: nat, ghost height: nat, ghost e: Entry, ghost p: nat)
      requires Valid() && l < height <= maxHeight && Linking(nodes, lists, x, l, height, e)
      requires CanLink(nodes, lists[l], x, l, p) && Splits(nodes, lists[l], KeyOf(e), p) && prev == At(lists[l], p)
      modifies this`nodes
      ensures Valid() && Linking(nodes, lists, x, l, height, e)
      ensures IsStore(old(nodes), lists, nodes, lists) && Grows(old(nodes), lists, nodes, lists)
      ensures prev in nodes && l < |nodes[prev].next|
      ensures Publishes(nodes, lists, x, l, p, SetNext(nodes, prev, l, Some(x)))
    {
      hide Splits;
      hide Linking;
      ghost var before := nodes;
      nodes := SetNext(nodes, x, l, nodes[prev].next[l]);
      OwnLink(before, lists, x, l, height, e, p, nodes);
    }

    /** The release store of SetNext. */
    method Publish(x: nat, l: nat, prev: nat, ghost height: nat, ghost e: Entry, ghost p: nat)
      requires Valid() && l < height <= maxHeight && Linking(nodes, lists, x, l, height, e)
      requires p <= |lists[l]| && prev == At(lists[l], p) && prev in nodes && l < |nodes[prev].next|
      requires Publishes(nodes, lists, x, l, p, SetNext(nodes, prev, l, Some(x)))
      modifies this`nodes, this`lists
      ensures Valid() && Linking(nodes, lists, x, l + 1, height, e)
      ensures lists == old(lists)[l := Linked(old(lists)[l], p, x)]
      ensures IsStore(old(nodes), old(lists), nodes, lists) && Grows(old(nodes), old(lists), nodes, lists)
    {
      hide Publishes;
      hide Linking;
      ghost var before, shorter := nodes, lists;
      nodes := SetNext(nodes, prev, l, Some(x));
      lists := lists[l := Linked(lists[l], p, x)];
      PublishedAt(before, shorter, x, l, height, e, p, nodes, lists);
    }

    method Contains(e: Entry) returns (found: bool)
      requires Valid()
      ensures found <==> exists i :: 0 <= i < |Contents()| && KeyOf(Contents()[i]) == KeyOf(e)
    {
      var next, prev := FindGreaterOrEqual(KeyOf(e));
      ghost var all, p := Contents(), FirstAtOrAfter(Contents(), KeyOf(e));
      found := next.Some? && KeyOf(nodes[next.value].entry) == KeyOf(e);
      forall i | 0 <= i < |all| && KeyOf(all[i]) == KeyOf(e)
        ensures p < |all| && KeyOf(all[p]) == KeyOf(e)
      {
        KeyIsFirst(all, KeyOf(e), i);
      }
    }
  }

  /** Levels below `l` have the new node; the others do not, nor any node with its key. */
  ghost predicate Linking(nodes: Nodes, lists: seq<seq<nat>>, x: nat, l: nat, height: nat, e: Entry)
  {
    && |lists| == MAX_HEIGHT && l <= height <= MAX_HEIGHT
    && x in nodes && x != HEAD && nodes[x].entry == e && |nodes[x].next| == height
    && (forall m :: 0 <= m < l ==> x in lists[m])
    && (forall m :: l <= m < MAX_HEIGHT ==> x !in lists[m] && NoSuchKey(nodes, lists[m], e))
  }

  ghost predicate NoSuchKey(nodes: Nodes, list: seq<nat>, e: Entry)
  {
    forall n :: n in list ==> n in nodes && KeyOf(nodes[n].entry) != KeyOf(e)
  }

  /** Level `l` got the new node where it belongs; the others stayed. */
  ghost predicate LinkedAt(nodes: Nodes, shorter: seq<seq<nat>>, lists: seq<seq<nat>>, l: nat, x: nat, e: Entry)
  {
    && |shorter| == |lists| == MAX_HEIGHT && l < MAX_HEIGHT
    && (forall m :: 0 <= m < MAX_HEIGHT && m != l ==> lists[m] == shorter[m])
    && exists p :: Splits(nodes, shorter[l], KeyOf(e), p) && lists[l] == Linked(shorter[l], p, x)
  }

  lemma LinkingNode(nodes: Nodes, lists: seq<seq<nat>>, x: nat, l: nat, height: nat, e: Entry)
    requires Linking(nodes, lists, x, l, height, e)
    ensures x in nodes && nodes[x].entry == e
  {
  }

  lemma LinkedElsewhere(nodes: Nodes, shorter: seq<seq<nat>>, lists: seq<seq<nat>>, l: nat, x: nat, e: Entry, m: nat)
    requires LinkedAt(nodes, shorter, lists, l, x, e) && m < MAX_HEIGHT && m != l
    ensures lists[m] == shorter[m]
  {
  }

  /** The new node and its predecessor at level `l` are there to be linked. */
  ghost predicate CanLink(nodes: Nodes, list: seq<nat>, x: nat, l: nat, p: nat)
  {
    && p <= |list| && LinkOk(nodes, l, list, p) && (p > 0 ==> At(list, p) in list)
    && x in nodes && l < |nodes[x].next| && At(list, p) != x
  }

  lemma PrevHasLink(nodes: Nodes, lists: seq<seq<nat>>, x: nat, l: nat, height: nat, e: Entry, prev: nat)
    returns (p: nat)
    requires Shape(nodes, lists) && Linking(nodes, lists, x, l, height, e) && l < height
    requires IsPrev(nodes, lists[l], KeyOf(e), prev)
    ensures p <= |lists[l]| && prev == At(lists[l], p)
    ensures Splits(nodes, lists[l], KeyOf(e), p) && CanLink(nodes, lists[l], x, l, p)
  {
    p :| Splits(nodes, lists[l], KeyOf(e), p) && prev == At(lists[l], p);
  }

  lemma OwnLink(nodes: Nodes, lists: seq<seq<nat>>, x: nat, l: nat, height: nat, e: Entry, p: nat, after: Nodes)
    requires Shape(nodes, lists) && Linking(nodes, lists, x, l, height, e) && l < height
    requires CanLink(nodes, lists[l], x, l, p) && Splits(nodes, lists[l], KeyOf(e), p)
    requires after == SetNext(nodes, x, l, After(lists[l], p))
    ensures IsStore(nodes, lists, after, lists) && Shape(after, lists) && Grows(nodes, lists, after, lists)
    ensures Publishes(after, lists, x, l, p, SetNext(after, At(lists[l], p), l, Some(x)))
    ensures Linking(after, lists, x, l, height, e)
  {
    assert StoresOwn(nodes, lists, x, l, After(lists[l], p), after);
    StoreKeeps(nodes, lists, after, lists);
    hide Shape;
    assert Splits(after, lists[l], KeyOf(e), p);
    assert NoSuchKey(nodes, lists[l], e);
  }

  lemma PublishedAt(nodes: Nodes, lists: seq<seq<nat>>, x: nat, l: nat, height: nat, e: Entry, p: nat, after: Nodes,
                    longer: seq<seq<nat>>)
    requires Shape(nodes, lists) && Linking(nodes, lists, x, l, height, e) && l < height
    requires Publishes(nodes, lists, x, l, p, after) && longer == lists[l := Linked(lists[l], p, x)]
    ensures IsStore(nodes, lists, after, longer) && Shape(after, longer) && Grows(nodes, lists, after, longer)
    ensures Linking(after, longer, x, l + 1, height, e)
  {
    StoreKeeps(nodes, lists, after, longer);
    hide Shape;
    hide Splits;
    forall m | l + 1 <= m < MAX_HEIGHT
      ensures x !in longer[m] && NoSuchKey(after, longer[m], e)
    {
      assert NoSuchKey(nodes, lists[m], e);
    }
  }

  lemma GrowsFrom(nodes: Nodes, lists: seq<seq<nat>>)
    requires |lists| == MAX_HEIGHT
    ensures Grows(nodes, lists, nodes, lists)
  {
  }

  lemma GrowsOn(a: Nodes, x: seq<seq<nat>>, b: Nodes, y: seq<seq<nat>>, c: Nodes, z: seq<seq<nat>>)
    requires Grows(a, x, b, y) && Grows(b, y, c, z)
    ensures Grows(a, x, c, z)
  {
  }

  lemma EntriesStay(nodes: Nodes, lists: seq<seq<nat>>, after: Nodes, longer: seq<seq<nat>>)
    requires Grows(nodes, lists, after, longer)
    ensures forall n :: n in nodes ==> n in after && after[n].entry == nodes[n].entry
  {
  }

  lemma ContentsStep(nodes: Nodes, shorter: seq<seq<nat>>, after: Nodes, lists: seq<seq<nat>>, l: nat, x: nat, e: Entry)
    requires Shape(nodes, shorter) && Shape(after, lists) && Grows(nodes, shorter, after, lists)
    requires LinkedAt(nodes, shorter, lists, l, x, e) && x in after && after[x].entry == e
    ensures EntriesOf(after, lists[0]) ==
      if l == 0 then MemTable.Add(EntriesOf(nodes, shorter[0]), e) else EntriesOf(nodes, shorter[0])
  {
    assert InKeyOrder(nodes, shorter[0]) && InKeyOrder(after, shorter[0]) && InKeyOrder(after, lists[0]);
    hide Shape;
    assert EntriesOf(after, shorter[0]) == EntriesOf(nodes, shorter[0]);
    hide Grows;
    hide EntriesOf;
    if l == 0 {
      var p :| Splits(nodes, shorter[0], KeyOf(e), p) && lists[0] == Linked(shorter[0], p, x);
      SplitsAt(nodes, shorter[0], KeyOf(e), p);
      ContentsAfter(after, shorter[0], p, x, e);
    }
  }

  lemma PrevKept(nodes: Nodes, after: Nodes, list: seq<nat>, target: IKey, x: nat)
    requires IsPrev(nodes, list, target, x) && forall n :: n in nodes ==> n in after && after[n].entry == nodes[n].entry
    ensures IsPrev(after, list, target, x)
  {
    var p :| Splits(nodes, list, target, p) && x == At(list, p);
    assert Splits(after, list, target, p);
  }

  /** The bottom level now reads as the memtable with the entry added. */
  lemma ContentsAfter(nodes: Nodes, list: seq<nat>, p: nat, x: nat, e: Entry)
    requires x in nodes && nodes[x].entry == e && InKeyOrder(nodes, list) && p <= |list|
    requires p == FirstAtOrAfter(EntriesOf(nodes, list), KeyOf(e))
    ensures EntriesOf(nodes, Linked(list, p, x)) == MemTable.Add(EntriesOf(nodes, list), e)
  {
    var s := EntriesOf(nodes, list);
    EntriesOfParts(nodes, list[..p] + [x], list[p..]);
    EntriesOfParts(nodes, list[..p], [x]);
    assert EntriesOf(nodes, list[..p]) == s[..p] && EntriesOf(nodes, list[p..]) == s[p..];
    assert EntriesOf(nodes, [x]) == [e];
  }

  lemma EntriesOfParts(nodes: Nodes, a: seq<nat>, b: seq<nat>)
    requires forall n :: n in a + b ==> n in nodes
    ensures (forall n :: n in a ==> n in nodes) && (forall n :: n in b ==> n in nodes)
    ensures EntriesOf(nodes, a + b) == EntriesOf(nodes, a) + EntriesOf(nodes, b)
  {
    assert forall n :: n in a ==> n in a + b;
    assert forall n :: n in b ==> n in a + b;
  }
}
