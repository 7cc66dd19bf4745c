/** The merging iterator (table/merger.cc): several sorted lists read as one,
    forwards and backwards, with changes of direction. */
module Merger {
  import opened Wrappers
  import opened Keys

  datatype Direction = Forward | Reverse

  /** `all` is the sorted union of the children, no key occurring twice. */
  ghost predicate SortedUnion(children: seq<seq<Entry>>, all: seq<Entry>)
  {
    && StrictlySorted(all)
    && (forall i :: 0 <= i < |children| ==> StrictlySorted(children[i]))
    && (forall i, j :: 0 <= i < |children| && 0 <= j < |children[i]| ==> children[i][j] in all)
    && (forall e :: e in all ==> exists i :: 0 <= i < |children| && e in children[i])
    && (forall i, j, e :: 0 <= i < |children| && 0 <= j < |children| && e in children[i] && e in children[j] ==> i == j)
  }

  /** The first `c` entries of a child are those that come before entry `at` of
      the union; at its end, all of them. */
  ghost predicate Cut(child: seq<Entry>, all: seq<Entry>, at: nat, c: nat)
  {
    c <= |child| && forall j :: 0 <= j < |child| ==> (j < c <==> Precedes(child[j], all, at))
  }

  predicate Precedes(e: Entry, all: seq<Entry>, at: nat)
  {
    at >= |all| || EntryBefore(e, all[at])
  }

  /** The position of a child that has just been moved back over its cut. */
  function StepBack(child: seq<Entry>, c: nat): nat
  {
    if c == 0 then |child| else c - 1
  }

  lemma InOrder(s: seq<Entry>, p: nat, q: nat)
    requires StrictlySorted(s) && p < |s| && q < |s|
    ensures EntryBefore(s[p], s[q]) <==> p < q
  {
    assert q < p ==> EntryBefore(s[q], s[p]);
  }

  ghost predicate ChildOf(child: seq<Entry>, all: seq<Entry>)
  {
    StrictlySorted(child) && StrictlySorted(all) && forall j :: 0 <= j < |child| ==> child[j] in all
  }

  /** Seeking every child to a target cuts them all where the union is cut. */
  lemma SeekCuts(child: seq<Entry>, all: seq<Entry>, target: IKey)
    requires ChildOf(child, all)
    ensures Cut(child, all, FirstAtOrAfter(all, target), FirstAtOrAfter(child, target))
  {
    var c, at := FirstAtOrAfter(child, target), FirstAtOrAfter(all, target);
    forall j | 0 <= j < |child|
      ensures j < c <==> Precedes(child[j], all, at)
    {
      var p :| 0 <= p < |all| && all[p] == child[j];
      if at < |all| {
        InOrder(all, p, at);
      }
      assert c < j ==> EntryBefore(child[c], child[j]);
    }
  }

  lemma SeekToSelf(all: seq<Entry>, at: nat)
    requires StrictlySorted(all) && at < |all|
    ensures FirstAtOrAfter(all, KeyOf(all[at])) == at
  {
    var f := FirstAtOrAfter(all, KeyOf(all[at]));
    assert f < at ==> EntryBefore(all[f], all[at]);
  }

  /** Before the next entry of the union: before this one, or this one. */
  lemma BeforeNext(child: seq<Entry>, all: seq<Entry>, at: nat, j: nat)
    requires ChildOf(child, all) && at < |all| && j < |child|
    ensures Precedes(child[j], all, at + 1) <==> Precedes(child[j], all, at) || child[j] == all[at]
  {
    var p :| 0 <= p < |all| && all[p] == child[j];
    InOrder(all, p, at);
    InOrder(all, at, p);
    if at + 1 < |all| {
      InOrder(all, p, at + 1);
    }
  }

  /** A cut moves only in the child that owns the entry passed. */
  lemma OthersCut(child: seq<Entry>, all: seq<Entry>, at: nat, c: nat)
    requires ChildOf(child, all) && at < |all| && all[at] !in child
    ensures Cut(child, all, at, c) <==> Cut(child, all, at + 1, c)
  {
    forall j | 0 <= j < |child|
      ensures Precedes(child[j], all, at) <==> Precedes(child[j], all, at + 1)
    {
      BeforeNext(child, all, at, j);
    }
  }

  /** The owner's position is where the cut is, and passing it moves the cut. */
  lemma OwnerCut(child: seq<Entry>, all: seq<Entry>, at: nat, p: nat)
    requires ChildOf(child, all) && at < |all| && p < |child| && child[p] == all[at]
    ensures Cut(child, all, at, p) && Cut(child, all, at + 1, p + 1)
  {
    forall j | 0 <= j < |child|
      ensures j < p <==> Precedes(child[j], all, at)
      ensures j < p + 1 <==> Precedes(child[j], all, at + 1)
    {
      InOrder(child, j, p);
      InOrder(child, p, j);
      BeforeNext(child, all, at, j);
    }
  }

  lemma CutUnique(child: seq<Entry>, all: seq<Entry>, at: nat, c: nat, d: nat)
    requires Cut(child, all, at, c) && Cut(child, all, at, d)
    ensures c == d
  {
    assert c < |child| ==> !Precedes(child[c], all, at);
    assert d < |child| ==> !Precedes(child[d], all, at);
  }

  /** MergingIterator over child lists.  A child position equal to the length of
      its list means the child is not valid. */
  class MergingIterator {
    const children: seq<seq<Entry>>
    var positions: seq<nat>
    var current: Option<nat>
    var direction: Direction
    ghost const all: seq<Entry>

    constructor (children: seq<seq<Entry>>, ghost all: seq<Entry>)
      requires SortedUnion(children, all)
      ensures this.children == children && this.all == all
      ensures Shape() && current.None?
    {
      this.children, this.all := children, all;
      positions := seq(|children|, i requires 0 <= i < |children| => |children[i]|);
      current, direction := None, Forward;
    }

    ghost predicate Shape()
      reads this
    {
      && SortedUnion(children, all) && |positions| == |children|
      && forall i :: 0 <= i < |children| ==> positions[i] <= |children[i]|
    }

    /** The iterator stands on entry `at` of the union (past the end: nowhere). */
    ghost predicate StandsAt(at: nat)
      reads this
    {
      && Shape() && at <= |all|
      && (current.None? <==> at == |all|)
      && (current.Some? ==> current.value < |children| && positions[current.value] < |children[current.value]|)
      && (current.Some? ==> children[current.value][positions[current.value]] == all[at])
      && (current.Some? ==> forall i :: 0 <= i < |children| ==> Positioned(children[i], positions[i], at))
    }

    /** Forward: on the first entry not before `at`; reverse: on the last not after. */
    ghost predicate Positioned(child: seq<Entry>, position: nat, at: nat)
      reads this
    {
      match direction
      case Forward => Cut(child, all, at, position)
      case Reverse => Back(child, position, at + 1)
    }

    /** Every child stands where a forward scan at `at` needs it. */
    ghost predicate AllCut(at: nat)
      reads this
    {
      Shape() && forall i :: 0 <= i < |children| ==> Cut(children[i], all, at, positions[i])
    }

    /** Every child stands just before its cut at `at`. */
    ghost predicate AllBack(at: nat)
      reads this
    {
      Shape() && forall i :: 0 <= i < |children| ==> Back(children[i], positions[i], at)
    }

    /** The child stands on its last entry before entry `at` of the union. */
    ghost predicate Back(child: seq<Entry>, position: nat, at: nat)
    {
      exists c: nat :: Cut(child, all, at, c) && position == StepBack(child, c)
    }

    lemma ChildFacts(i: nat)
      requires SortedUnion(children, all) && i < |children|
      ensures ChildOf(children[i], all)
    {
    }

    method FindSmallest(ghost at: nat)
      requires AllCut(at) && at <= |all| && direction == Forward
      modifies this`current
      ensures StandsAt(at)
    {
      var smallest: Option<nat> := None;
      var i := 0;
      while i < |children|
        invariant 0 <= i <= |children|
        invariant smallest.Some? ==> smallest.value < i && positions[smallest.value] < |children[smallest.value]|
        invariant forall j :: 0 <= j < i && positions[j] < |children[j]| ==>
          smallest.Some? && !EntryBefore(children[j][positions[j]], children[smallest.value][positions[smallest.value]])
      {
        if positions[i] < |children[i]| {
          if smallest.None? {
            smallest := Some(i);
          } else if EntryBefore(children[i][positions[i]], children[smallest.value][positions[smallest.value]]) {
            smallest := Some(i);
          }
        }
        i := i + 1;
      }
      SmallestIsNext(at, smallest);
      current := smallest;
    }

    lemma SmallestIsNext(at: nat, smallest: Option<nat>)
      requires AllCut(at) && at <= |all|
      requires smallest.Some? ==> smallest.value < |children| && positions[smallest.value] < |children[smallest.value]|
      requires forall j :: 0 <= j < |children| && positions[j] < |children[j]| ==>
        smallest.Some? && !EntryBefore(children[j][positions[j]], children[smallest.value][positions[smallest.value]])
      ensures smallest.None? <==> at == |all|
      ensures smallest.Some? ==> at < |all| && children[smallest.value][positions[smallest.value]] == all[at]
    {
      if at < |all| {
        assert all[at] in all;
        var i :| 0 <= i < |children| && all[at] in children[i];
        var p :| 0 <= p < |children[i]| && children[i][p] == all[at];
        OwnerCut(children[i], all, at, p);
        CutUnique(children[i], all, at, p, positions[i]);
        var s := smallest.value;
        var q :| 0 <= q < |all| && all[q] == children[s][positions[s]];
        InOrder(all, q, at);
        InOrder(all, at, q);
      }
    }

    /** No valid child stands on an entry after the chosen one. */
    ghost predicate NoneLarger(from: nat, largest: Option<nat>)
      requires Shape() && from <= |children|
      reads this
    {
      && (largest.Some? ==> from <= largest.value < |children| && positions[largest.value] < |children[largest.value]|)
      && forall j :: from <= j < |children| && positions[j] < |children[j]| ==>
        largest.Some? && !EntryBefore(children[largest.value][positions[largest.value]], children[j][positions[j]])
    }

    method ScanLargest() returns (largest: Option<nat>)
      requires Shape()
      ensures NoneLarger(0, largest)
    {
      largest := None;
      var i := |children|;
      while i > 0
        invariant 0 <= i <= |children|
        invariant NoneLarger(i, largest)
      {
        i := i - 1;
        if positions[i] < |children[i]| {
          if largest.None? {
            largest := Some(i);
          } else if EntryBefore(children[largest.value][positions[largest.value]], children[i][positions[i]]) {
            largest := Some(i);
          }
        }
      }
    }

    method FindLargest(ghost at: nat)
      requires AllBack(at) && at <= |all| && direction == Reverse
      modifies this`current
      ensures StandsAt(if at == 0 then |all| else at - 1)
    {
      var largest := ScanLargest();
      LargestIsPrevious(at, largest);
      current := largest;
    }

    lemma LargestIsPrevious(at: nat, largest: Option<nat>)
      requires AllBack(at) && at <= |all| && NoneLarger(0, largest)
      ensures largest.None? <==> at == 0
      ensures largest.Some? ==> at > 0 && children[largest.value][positions[largest.value]] == all[at - 1]
    {
      if at > 0 {
        assert all[at - 1] in all;
        var i :| 0 <= i < |children| && all[at - 1] in children[i];
        var p :| 0 <= p < |children[i]| && children[i][p] == all[at - 1];
        OwnerCut(children[i], all, at - 1, p);
        var c: nat :| Cut(children[i], all, at, c) && positions[i] == StepBack(children[i], c);
        CutUnique(children[i], all, at, p + 1, c);
        assert positions[i] == p;
      }
      if largest.Some? {
        var s := largest.value;
        var c: nat :| Cut(children[s], all, at, c) && positions[s] == StepBack(children[s], c);
        assert c > 0 && positions[s] == c - 1 < c;
        var q :| 0 <= q < |all| && all[q] == children[s][c - 1];
        BackBelow(at, q);
      }
    }

    /** An entry before the cut at `at` sits below `at` in the union. */
    lemma BackBelow(at: nat, q: nat)
      requires StrictlySorted(all) && 0 < at <= |all| && q < |all| && Precedes(all[q], all, at)
      ensures q < at
      ensures !EntryBefore(all[q], all[at - 1]) ==> q == at - 1
    {
      if at < |all| {
        InOrder(all, q, at);
      }
      InOrder(all, q, at - 1);
    }
  
    method SeekToFirst()
      requires Shape()
      modifies this
      ensures StandsAt(0)
    {
      direction := Forward;
      positions := seq(|children|, i => 0);
      forall i | 0 <= i < |children|
        ensures Cut(children[i], all, 0, 0)
      {
        ChildFacts(i);
        FrontCut(children[i], all);
      }
      FindSmallest(0);
    }

    method SeekToLast()
      requires Shape()
      modifies this
      ensures StandsAt(if |all| == 0 then 0 else |all| - 1)
    {
      direction := Reverse;
      positions := seq(|children|, i requires 0 <= i < |children| => StepBack(children[i], |children[i]|));
      forall i | 0 <= i < |children|
        ensures Back(children[i], positions[i], |all|)
      {
        assert Cut(children[i], all, |all|, |children[i]|);
      }
      FindLargest(|all|);
    }

    method Seek(target: IKey)
      requires Shape()
      modifies this
      ensures StandsAt(FirstAtOrAfter(all, target))
    {
      direction := Forward;
      positions := seq(|children|, i requires 0 <= i < |children| => FirstAtOrAfter(children[i], target));
      forall i | 0 <= i < |children|
        ensures Cut(children[i], all, FirstAtOrAfter(all, target), positions[i])
      {
        ChildFacts(i);
        SeekCuts(children[i], all, target);
      }
      FindSmallest(FirstAtOrAfter(all, target));
    }

    function Key(): IKey
      requires current.Some? && current.value < |children| == |positions|
      requires positions[current.value] < |children[current.value]|
      reads this
    {
      KeyOf(children[current.value][positions[current.value]])
    }

    /** Move on: the next entry of the union. */
    method Next(ghost at: nat)
      requires StandsAt(at) && current.Some?
      modifies this
      ensures StandsAt(at + 1)
    {
      var cur := current.value;
      if direction != Forward {
        var key := Key();
        var i := 0;
        while i < |children|
          invariant 0 <= i <= |children| && Shape()
          invariant current == Some(cur) && direction == Reverse
          invariant positions[cur] == old(positions)[cur]
          invariant forall j :: 0 <= j < i && j != cur ==> Cut(children[j], all, at + 1, positions[j])
        {
          if i != cur {
            var p := FirstAtOrAfter(children[i], key);
            SeekPastKey(i, cur, at, p);
            if p < |children[i]| && KeyOf(children[i][p]) == key {
              p := p + 1;
            }
            positions := positions[i := p];
          }
          i := i + 1;
        }
        direction := Forward;
      } else {
        forall j | 0 <= j < |children| && j != cur
          ensures Cut(children[j], all, at + 1, positions[j])
        {
          NotOwner(j, cur, at);
          OthersCut(children[j], all, at, positions[j]);
        }
      }
      OwnerCut(children[cur], all, at, positions[cur]);
      positions := positions[cur := positions[cur] + 1];
      FindSmallest(at + 1);
    }

    /** Move back: the previous entry of the union, or nowhere from the first. */
    method Prev(ghost at: nat)
      requires StandsAt(at) && current.Some?
      modifies this
      ensures StandsAt(if at == 0 then |all| else at - 1)
    {
      var cur := current.value;
      if direction != Reverse {
        var key := Key();
        var i := 0;
        while i < |children|
          invariant 0 <= i <= |children| && Shape()
          invariant current == Some(cur) && direction == Forward
          invariant positions[cur] == old(positions)[cur]
          invariant forall j :: 0 <= j < i && j != cur ==> Back(children[j], positions[j], at)
        {
          if i != cur {
            var p := FirstAtOrAfter(children[i], key);
            SeekPastKey(i, cur, at, p);
            assert Cut(children[i], all, at, p);
            if p < |children[i]| {
              positions := positions[i := if p == 0 then |children[i]| else p - 1];
            } else {
              positions := positions[i := if |children[i]| == 0 then 0 else |children[i]| - 1];
            }
            assert positions[i] == StepBack(children[i], p);
          }
          i := i + 1;
        }
        direction := Reverse;
      } else {
        forall j | 0 <= j < |children| && j != cur
          ensures Back(children[j], positions[j], at)
        {
          NotOwner(j, cur, at);
          var c: nat :| Cut(children[j], all, at + 1, c) && positions[j] == StepBack(children[j], c);
          OthersCut(children[j], all, at, c);
        }
      }
      var p := positions[cur];
      OwnerCut(children[cur], all, at, p);
      positions := positions[cur := if p == 0 then |children[cur]| else p - 1];
      assert positions[cur] == StepBack(children[cur], p);
      FindLargest(at);
    }

    lemma NotOwner(j: nat, cur: nat, at: nat)
      requires SortedUnion(children, all) && j < |children| && cur < |children| && j != cur
      requires at < |all| && all[at] in children[cur]
      ensures ChildOf(children[j], all) && all[at] !in children[j]
    {
    }

    /** Another child sought to the current key stands on the cut around it. */
    lemma SeekPastKey(i: nat, cur: nat, at: nat, p: nat)
      requires SortedUnion(children, all) && i < |children| && cur < |children| && i != cur
      requires at < |all| && all[at] in children[cur] && p == FirstAtOrAfter(children[i], KeyOf(all[at]))
      ensures Cut(children[i], all, at, p) && Cut(children[i], all, at + 1, p)
      ensures p < |children[i]| ==> KeyOf(children[i][p]) != KeyOf(all[at])
    {
      NotOwner(i, cur, at);
      SeekCuts(children[i], all, KeyOf(all[at]));
      SeekToSelf(all, at);
      OthersCut(children[i], all, at, p);
      if p < |children[i]| {
        var q :| 0 <= q < |all| && all[q] == children[i][p];
        InOrder(all, q, at);
        InOrder(all, at, q);
      }
    }
  }

  lemma FrontCut(child: seq<Entry>, all: seq<Entry>)
    requires ChildOf(child, all)
    ensures Cut(child, all, 0, 0)
  {
    forall j | 0 <= j < |child|
      ensures !Precedes(child[j], all, 0)
    {
      var q :| 0 <= q < |all| && all[q] == child[j];
      InOrder(all, q, 0);
    }
  }

  /** Read everything from the front: the sorted union itself. */
  method ReadAll(it: MergingIterator) returns (r: seq<Entry>)
    requires it.Shape()
    modifies it
    ensures r == it.all
  {
    it.SeekToFirst();
    r := [];
    while it.current.Some?
      invariant |r| <= |it.all| && r == it.all[..|r|] && it.StandsAt(|r|)
      decreases |it.all| - |r|
    {
      ghost var at := |r|;
      r := r + [it.children[it.current.value][it.positions[it.current.value]]];
      it.Next(at);
    }
  }
}
