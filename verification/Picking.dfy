/** Choosing the inputs of a compaction (db/version_set.cc, PickCompaction and
    SetupOtherInputs). */
module Picking {
  import opened Wrappers
  import opened Keys
  import opened Files
  import opened Overlap

  datatype Compaction = Compaction(level: nat, inputs0: Level, inputs1: Level, grandparents: Level)
  {
    function Inputs(): Level { inputs0 + inputs1 }
  }

  /** What replacing `c.inputs0` of a level and `c.inputs1` of the next relies
      on; [lo, hi] is the key range of all inputs. */
  ghost predicate PickedOk(files: Level, parents: Level, c: Compaction, lo: Key, hi: Key)
  {
    && c.inputs0 != []
    && (forall f :: f in c.inputs0 ==> f in files)
    && (forall f :: f in c.inputs1 ==> f in parents)
    && lo <= hi && IsHull(c.Inputs(), lo, hi)
    && Isolated(files, c.inputs0)
    && MissedByOthers(parents, c.inputs1, lo, hi)
    && CoveredRange(c.Inputs(), lo, hi)
    && Distinct(c.inputs0) && Distinct(c.inputs1)
  }

  /** No other file of the level shares a user key range with an input. */
  ghost predicate Isolated(files: Level, inputs: Level)
  {
    forall f, x :: f in files && f !in inputs && x in inputs ==> !MeetsRange(f, x.smallest.user, x.largest.user)
  }

  ghost predicate MissedByOthers(files: Level, inputs: Level, lo: Key, hi: Key)
  {
    forall f :: f in files && f !in inputs ==> !MeetsRange(f, lo, hi)
  }

  ghost predicate SomeCovers(files: Level, k: Key)
  {
    exists f :: f in files && Covers(f, k)
  }

  /** Every user key of [lo, hi] lies inside the range of some file. */
  ghost predicate CoveredRange(files: Level, lo: Key, hi: Key)
  {
    forall k :: lo <= k <= hi ==> SomeCovers(files, k)
  }

  /** A range that meets the hull of the inputs meets some input: one that
      misses every input misses everything a compaction of them can produce. */
  lemma MeetsHullMeetsInput(inputs: Level, lo: Key, hi: Key, f: File)
    requires CoveredRange(inputs, lo, hi) && lo <= hi && f.smallest.user <= f.largest.user
    ensures MeetsRange(f, lo, hi) ==> SomeMeets(inputs, Some(f.smallest.user), Some(f.largest.user))
  {
    if MeetsRange(f, lo, hi) {
      var k := if f.smallest.user >= lo then f.smallest.user else lo;
      assert SomeCovers(inputs, k);
      var x :| x in inputs && Covers(x, k);
      assert MeetsRange(x, f.smallest.user, f.largest.user);
    }
  }

  /** [lo2, hi2] sticks out of [lo, hi] only as far as files that meet [lo, hi]. */
  ghost predicate StretchedBy(files: Level, lo: Key, hi: Key, lo2: Key, hi2: Key)
  {
    && (lo2 >= lo || exists h :: h in files && MeetsRange(h, lo, hi) && h.smallest.user <= lo2)
    && (hi2 <= hi || exists h :: h in files && MeetsRange(h, lo, hi) && h.largest.user >= hi2)
  }

  /** In a disjoint level, stretching a range by the files that meet it does
      not make it meet any other file. */
  lemma StretchMisses(files: Level, lo: Key, hi: Key, lo2: Key, hi2: Key, g: File)
    requires FilesOk(files) && DisjointSorted(files) && lo <= hi
    requires StretchedBy(files, lo, hi, lo2, hi2)
    requires g in files && !MeetsRange(g, lo, hi)
    ensures !MeetsRange(g, lo2, hi2)
  {
    NonemptyRange(files, g);
    if g.largest.user < lo && lo2 < lo {
      var h :| h in files && MeetsRange(h, lo, hi) && h.smallest.user <= lo2;
      OrderByLargest(files, g, h);
    }
    if g.smallest.user > hi && hi2 > hi {
      var h :| h in files && MeetsRange(h, lo, hi) && h.largest.user >= hi2;
      OrderByLargest(files, h, g);
    }
  }

  lemma OrderByLargest(files: Level, g: File, h: File)
    requires FilesOk(files) && DisjointSorted(files)
    requires g in files && h in files && g.largest.user < h.largest.user
    ensures g.largest.user < h.smallest.user
  {
    var i :| 0 <= i < |files| && files[i] == g;
    var j :| 0 <= j < |files| && files[j] == h;
    NonemptyRange(files, g);
    NonemptyRange(files, h);
  }

  lemma NonemptyRange(files: Level, f: File)
    requires FilesOk(files) && f in files
    ensures f.smallest.user <= f.largest.user
  {
    assert FileOk(f);
    EntryInRange(f, f.entries[0]);
  }

  /** Level inputs that a compaction may start from: the parents they meet will
      complete them. */
  ghost predicate Started(files: Level, parents: Level, inputs0: Level, lo0: Key, hi0: Key)
  {
    && inputs0 != [] && (forall f :: f in inputs0 ==> f in files)
    && IsHull(inputs0, lo0, hi0) && lo0 <= hi0
    && Isolated(files, inputs0) && Distinct(inputs0)
    && CoveredRange(inputs0 + Meeting(parents, Some(lo0), Some(hi0)), lo0, hi0)
  }

  lemma WithParents(files: Level, parents: Level, lo0: Key, hi0: Key, c: Compaction, lo: Key, hi: Key)
    requires Started(files, parents, c.inputs0, lo0, hi0)
    requires FilesOk(parents) && DisjointSorted(parents) && Distinct(parents)
    requires c.inputs1 == Meeting(parents, Some(lo0), Some(hi0))
    requires IsHull(c.Inputs(), lo, hi)
    ensures PickedOk(files, parents, c, lo, hi)
  {
    MeetingDistinct(parents, Some(lo0), Some(hi0));
    HullStretch(parents, c.inputs0, c.inputs1, lo0, hi0, lo, hi);
    forall f | f in parents && f !in c.inputs1
      ensures !MeetsRange(f, lo, hi)
    {
      StretchMisses(parents, lo0, hi0, lo, hi, f);
    }
    HullCovered(c.inputs0, c.inputs1, lo0, hi0, lo, hi);
  }

  lemma HullCovered(inputs0: Level, inputs1: Level, lo0: Key, hi0: Key, lo: Key, hi: Key)
    requires IsHull(inputs0, lo0, hi0) && IsHull(inputs0 + inputs1, lo, hi)
    requires CoveredRange(inputs0 + inputs1, lo0, hi0)
    requires forall h :: h in inputs1 ==> MeetsRange(h, lo0, hi0)
    ensures CoveredRange(inputs0 + inputs1, lo, hi)
  {
    forall k | lo <= k <= hi
      ensures SomeCovers(inputs0 + inputs1, k)
    {
      if k < lo0 {
        var h :| h in inputs0 + inputs1 && h.smallest.user == lo;
        assert h in inputs1 && Covers(h, k);
      } else if k > hi0 {
        var h :| h in inputs0 + inputs1 && h.largest.user == hi;
        assert h in inputs1 && Covers(h, k);
      }
    }
  }

  lemma HullStretch(files: Level, inputs0: Level, inputs1: Level, lo0: Key, hi0: Key, lo: Key, hi: Key)
    requires IsHull(inputs0, lo0, hi0) && IsHull(inputs0 + inputs1, lo, hi)
    requires inputs1 == Meeting(files, Some(lo0), Some(hi0))
    ensures lo <= lo0 && hi0 <= hi
    ensures StretchedBy(files, lo0, hi0, lo, hi)
  {
    var a :| a in inputs0 && a.smallest.user == lo0;
    var b :| b in inputs0 && b.largest.user == hi0;
    assert a in inputs0 + inputs1 && b in inputs0 + inputs1;
    var h :| h in inputs0 + inputs1 && h.smallest.user == lo;
    var g :| g in inputs0 + inputs1 && g.largest.user == hi;
    assert lo < lo0 ==> h in inputs1;
    assert hi > hi0 ==> g in inputs1;
  }

  lemma HullInside(files: Level, some: Level, lo: Key, hi: Key, lo2: Key, hi2: Key)
    requires IsHull(files, lo, hi) && IsHull(some, lo2, hi2) && forall f :: f in some ==> f in files
    ensures lo <= lo2 && hi2 <= hi
  {
  }

  /** Every key of the hull of the grown inputs is in [lo, hi] or in one of them. */
  lemma GrownKeys(level: Level, lo: Key, hi: Key, expanded0: Level, lo2: Key, hi2: Key, lo0: Key, hi0: Key, k: Key)
    requires expanded0 == Meeting(level, Some(lo2), Some(hi2)) && IsHull(expanded0, lo0, hi0)
    requires Reached(level, Some(lo), Some(hi), Some(lo2), Some(hi2))
    requires lo0 <= k <= hi0
    ensures lo <= k <= hi || SomeCovers(expanded0, k)
  {
    if k < lo2 {
      var e :| e in expanded0 && e.smallest.user == lo0;
      assert Covers(e, k);
    } else if k > hi2 {
      var g :| g in expanded0 && g.largest.user == hi0;
      assert Covers(g, k);
    } else if !(lo <= k <= hi) {
      assert InRange(k, Some(lo2), Some(hi2)) && !InRange(k, Some(lo), Some(hi));
      assert Explained(level, k, Some(lo), Some(hi), Some(lo2), Some(hi2));
      var f :| f in level && Meets(f, Some(lo2), Some(hi2)) && Covers(f, k);
      assert f in expanded0;
    }
  }

  lemma GrownIsolated(l: nat, level: Level, lo: Key, hi: Key, expanded0: Level)
    requires FilesOk(level) && (l > 0 ==> DisjointSorted(level)) && lo <= hi
    requires l == 0 ==> ClosedRange(level, Some(lo), Some(hi))
    requires expanded0 == Meeting(level, Some(lo), Some(hi))
    ensures Isolated(level, expanded0)
  {
    forall f, x | f in level && f !in expanded0 && x in expanded0
      ensures !MeetsRange(f, x.smallest.user, x.largest.user)
    {
      if l > 0 {
        StretchMisses(level, lo, hi, x.smallest.user, x.largest.user, f);
      }
    }
  }

  lemma StillCovered(old0: Level, old1: Level, new0: Level, new1: Level, lo: Key, hi: Key, k: Key)
    requires CoveredRange(old0 + old1, lo, hi) && lo <= k <= hi
    requires forall f :: f in old0 ==> f in new0
    requires forall f :: f in old1 ==> f in new1
    ensures SomeCovers(new0 + new1, k)
  {
    assert SomeCovers(old0 + old1, k);
    var f :| f in old0 + old1 && Covers(f, k);
    assert f in new0 + new1;
  }

  /** The inputs grown over the whole range [lo, hi] of a compaction: the old
      inputs stay in, no other file of the level shares a key with them, and
      every key of their range is still inside some input. */
  lemma GrownStarted(l: nat, files: Level, parents: Level, c: Compaction, a: Key, b: Key, lo: Key, hi: Key,
                     expanded0: Level, lo2: Key, hi2: Key, lo0: Key, hi0: Key)
    requires FilesOk(files) && (l > 0 ==> DisjointSorted(files)) && Distinct(files)
    requires PickedOk(files, parents, c, lo, hi)
    requires IsHull(c.inputs0, a, b) && c.inputs1 == Meeting(parents, Some(a), Some(b))
    requires expanded0 == Meeting(files, Some(lo2), Some(hi2)) && IsHull(expanded0, lo0, hi0)
    requires Reached(files, Some(lo), Some(hi), Some(lo2), Some(hi2))
    requires l == 0 ==> ClosedRange(files, Some(lo2), Some(hi2))
    ensures Started(files, parents, expanded0, lo0, hi0)
    ensures forall f :: f in c.inputs0 ==> f in expanded0
  {
    MeetingDistinct(files, Some(lo2), Some(hi2));
    InputsStay(files, c, lo, hi, expanded0, lo2, hi2);
    GrownIsolated(l, files, lo2, hi2, expanded0);
    NonemptyRange(files, c.inputs0[0]);
    GrownCovered(files, parents, c, a, b, lo, hi, expanded0, lo2, hi2, lo0, hi0);
  }

  lemma InputsStay(files: Level, c: Compaction, lo: Key, hi: Key, expanded0: Level, lo2: Key, hi2: Key)
    requires FilesOk(files) && (forall f :: f in c.inputs0 ==> f in files) && IsHull(c.Inputs(), lo, hi)
    requires expanded0 == Meeting(files, Some(lo2), Some(hi2)) && lo2 <= lo && hi <= hi2
    ensures forall f :: f in c.inputs0 ==> f in expanded0
  {
    forall f | f in c.inputs0
      ensures f in expanded0
    {
      NonemptyRange(files, f);
      assert f in c.Inputs();
    }
  }

  lemma GrownCovered(files: Level, parents: Level, c: Compaction, a: Key, b: Key, lo: Key, hi: Key,
                     expanded0: Level, lo2: Key, hi2: Key, lo0: Key, hi0: Key)
    requires CoveredRange(c.Inputs(), lo, hi)
    requires IsHull(c.inputs0, a, b) && c.inputs1 == Meeting(parents, Some(a), Some(b))
    requires expanded0 == Meeting(files, Some(lo2), Some(hi2)) && IsHull(expanded0, lo0, hi0)
    requires Reached(files, Some(lo), Some(hi), Some(lo2), Some(hi2))
    requires forall f :: f in c.inputs0 ==> f in expanded0
    ensures CoveredRange(expanded0 + Meeting(parents, Some(lo0), Some(hi0)), lo0, hi0)
  {
    HullInside(expanded0, c.inputs0, lo0, hi0, a, b);
    var newParents := Meeting(parents, Some(lo0), Some(hi0));
    forall k | lo0 <= k <= hi0
      ensures SomeCovers(expanded0 + newParents, k)
    {
      GrownKeys(files, lo, hi, expanded0, lo2, hi2, lo0, hi0, k);
      if lo <= k <= hi {
        StillCovered(c.inputs0, c.inputs1, expanded0, newParents, lo, hi, k);
      } else {
        var f :| f in expanded0 && Covers(f, k);
        assert f in expanded0 + newParents;
      }
    }
  }

  /** Complete a compaction of `inputs0`: the parents it meets, then more files
      of the level when that costs no further parent, then the grandparents. */
  method SetupOtherInputs(level: nat, files: Level, parents: Level, grandparents: Level, inputs0: Level,
                          maxExpandedBytes: nat, ghost lo0: Key, ghost hi0: Key)
    returns (c: Compaction, pointer: IKey, ghost lo: Key, ghost hi: Key)
    requires FilesOk(files) && (level > 0 ==> DisjointSorted(files)) && Distinct(files)
    requires FilesOk(parents) && DisjointSorted(parents) && Distinct(parents)
    requires Started(files, parents, inputs0, lo0, hi0)
    ensures c.level == level && PickedOk(files, parents, c, lo, hi)
    ensures forall f :: f in inputs0 ==> f in c.inputs0
    ensures c.grandparents == Meeting(grandparents, Some(lo), Some(hi))
    ensures Completes(files, parents, inputs0, maxExpandedBytes, c) && IsEnd(c.inputs0, pointer)
  {
    hide CannotGrow;
    hide Grown;
    hide Completes;
    hide GrowsTo;
    hide IsEnd;
    hide PickedOk;
    hide Started;
    hide Distinct;
    hide FilesOk;
    hide DisjointSorted;
    hide IsHull;
    hide ClosedRange;
    hide Reached;
    StartedFacts(files, parents, inputs0, lo0, hi0);
    var allStart, allLimit;
    c, pointer, allStart, allLimit := AddParents(level, files, parents, inputs0, lo0, hi0);
    var inputs1 := c.inputs1;
    ghost var first, firstLo, firstHi := c, allStart.user, allLimit.user;
    if inputs1 != [] {
      var grown := TryToGrow(files, parents, c, maxExpandedBytes, lo0, hi0, allStart.user, allLimit.user);
      if grown.Some? {
        c, pointer := grown.value.0, grown.value.1;
        GrownInputs(files, parents, c);
        allStart, allLimit := GetRange(c.inputs0 + c.inputs1);
        ghost var newLo, newHi :| GrownFrom(files, parents, c, newLo, newHi);
        WithParents(files, parents, newLo, newHi, c, allStart.user, allLimit.user);
        GrewTo(files, parents, first, firstLo, firstHi, maxExpandedBytes, c);
      } else {
        StayedSo(files, parents, first, firstLo, firstHi, maxExpandedBytes);
      }
    } else {
      StayedSo(files, parents, first, firstLo, firstHi, maxExpandedBytes);
    }
    ItCompletes(files, parents, inputs0, lo0, hi0, firstLo, firstHi, maxExpandedBytes, c);
    var met, _, _ := GetOverlappingInputs(level + 2, grandparents, Some(allStart.user), Some(allLimit.user));
    WithGrandparents(files, parents, c, allStart.user, allLimit.user, met);
    SameInputs(files, parents, inputs0, maxExpandedBytes, c, met);
    c := c.(grandparents := met);
    lo, hi := allStart.user, allLimit.user;
  }

  lemma GrownInputs(files: Level, parents: Level, c: Compaction)
    requires exists lo, hi :: GrownFrom(files, parents, c, lo, hi)
    ensures c.inputs0 != []
  {
  }

  lemma GrewTo(files: Level, parents: Level, first: Compaction, lo: Key, hi: Key, maxExpandedBytes: nat, c: Compaction)
    requires first.inputs1 != [] && |c.inputs0| > |first.inputs0|
    requires exists lo2, hi2 :: Grown(files, parents, first, lo, hi, lo2, hi2, maxExpandedBytes, c)
    ensures GrowsTo(files, parents, first, lo, hi, maxExpandedBytes, c)
  {
  }

  lemma StayedSo(files: Level, parents: Level, first: Compaction, lo: Key, hi: Key, maxExpandedBytes: nat)
    requires first.inputs1 == []
      || exists lo2, hi2 :: CannotGrow(files, parents, first, lo, hi, lo2, hi2, maxExpandedBytes)
    ensures GrowsTo(files, parents, first, lo, hi, maxExpandedBytes, first)
  {
  }

  lemma ItCompletes(files: Level, parents: Level, inputs0: Level, lo0: Key, hi0: Key, lo1: Key, hi1: Key,
                    maxExpandedBytes: nat, c: Compaction)
    requires IsHull(inputs0, lo0, hi0)
    requires var first := Compaction(c.level, inputs0, Meeting(parents, Some(lo0), Some(hi0)), []);
      IsHull(first.Inputs(), lo1, hi1) && GrowsTo(files, parents, first, lo1, hi1, maxExpandedBytes, c)
    ensures Completes(files, parents, inputs0, maxExpandedBytes, c)
  {
    hide IsHull;
    hide GrowsTo;
    hide Meeting;
    assert Completion(files, parents, inputs0, lo0, hi0, lo1, hi1, maxExpandedBytes, c);
  }

  lemma SameInputs(files: Level, parents: Level, inputs0: Level, maxExpandedBytes: nat, c: Compaction,
                   grandparents: Level)
    requires Completes(files, parents, inputs0, maxExpandedBytes, c)
    ensures Completes(files, parents, inputs0, maxExpandedBytes, c.(grandparents := grandparents))
  {
    hide IsHull;
    hide CannotGrow;
    hide Grown;
    hide Meeting;
    var d := c.(grandparents := grandparents);
    var lo0, hi0, lo1, hi1 :|
      IsHull(inputs0, lo0, hi0) && Completion(files, parents, inputs0, lo0, hi0, lo1, hi1, maxExpandedBytes, c);
    var first := Compaction(c.level, inputs0, Meeting(parents, Some(lo0), Some(hi0)), []);
    if |c.inputs0| > |first.inputs0| {
      var lo2, hi2 :| Grown(files, parents, first, lo1, hi1, lo2, hi2, maxExpandedBytes, c);
      assert Grown(files, parents, first, lo1, hi1, lo2, hi2, maxExpandedBytes, d) by {
        SameGrown(files, parents, first, lo1, hi1, lo2, hi2, maxExpandedBytes, c, grandparents);
      }
    }
    assert Completion(files, parents, inputs0, lo0, hi0, lo1, hi1, maxExpandedBytes, d);
  }

  lemma SameGrown(files: Level, parents: Level, c: Compaction, lo: Key, hi: Key, lo2: Option<Key>, hi2: Option<Key>,
                  maxExpandedBytes: nat, g: Compaction, grandparents: Level)
    requires Grown(files, parents, c, lo, hi, lo2, hi2, maxExpandedBytes, g)
    ensures Grown(files, parents, c, lo, hi, lo2, hi2, maxExpandedBytes, g.(grandparents := grandparents))
  {
  }

  lemma StartedFacts(files: Level, parents: Level, inputs0: Level, lo0: Key, hi0: Key)
    requires Started(files, parents, inputs0, lo0, hi0)
    ensures inputs0 != [] && IsHull(inputs0, lo0, hi0)
  {
  }

  lemma WithGrandparents(files: Level, parents: Level, c: Compaction, lo: Key, hi: Key, grandparents: Level)
    requires PickedOk(files, parents, c, lo, hi)
    ensures PickedOk(files, parents, c.(grandparents := grandparents), lo, hi)
  {
    assert c.(grandparents := grandparents).Inputs() == c.Inputs();
    hide IsHull;
    hide Isolated;
    hide MissedByOthers;
    hide CoveredRange;
    hide Distinct;
  }

  method AddParents(level: nat, files: Level, parents: Level, inputs0: Level, ghost lo0: Key, ghost hi0: Key)
    returns (c: Compaction, largest: IKey, allStart: IKey, allLimit: IKey)
    requires FilesOk(parents) && DisjointSorted(parents) && Distinct(parents)
    requires Started(files, parents, inputs0, lo0, hi0)
    ensures c == Compaction(level, inputs0, Meeting(parents, Some(lo0), Some(hi0)), [])
    ensures PickedOk(files, parents, c, allStart.user, allLimit.user)
    ensures IsHull(inputs0 + c.inputs1, allStart.user, allLimit.user) && IsEnd(inputs0, largest)
  {
    var smallest;
    smallest, largest := GetRange(inputs0);
    HullInside(inputs0, inputs0, lo0, hi0, smallest.user, largest.user);
    HullInside(inputs0, inputs0, smallest.user, largest.user, lo0, hi0);
    var inputs1, _, _ := GetOverlappingInputs(level + 1, parents, Some(smallest.user), Some(largest.user));
    c := Compaction(level, inputs0, inputs1, []);
    allStart, allLimit := GetRange(inputs0 + inputs1);
    WithParents(files, parents, lo0, hi0, c, allStart.user, allLimit.user);
  }

  ghost predicate GrownFrom(files: Level, parents: Level, c: Compaction, lo0: Key, hi0: Key)
  {
    Started(files, parents, c.inputs0, lo0, hi0) && c.inputs1 == Meeting(parents, Some(lo0), Some(hi0))
  }

  /** See whether the level inputs can grow without adding a parent. */
  method TryToGrow(files: Level, parents: Level, c: Compaction, maxExpandedBytes: nat,
                   ghost a: Key, ghost b: Key, lo: Key, hi: Key)
    returns (grown: Option<(Compaction, IKey)>)
    requires FilesOk(files) && (c.level > 0 ==> DisjointSorted(files)) && Distinct(files)
    requires PickedOk(files, parents, c, lo, hi)
    requires IsHull(c.inputs0, a, b) && c.inputs1 == Meeting(parents, Some(a), Some(b))
    ensures grown.Some? ==> var g := grown.value.0;
      && g.level == c.level && |g.inputs0| > |c.inputs0| && |g.inputs1| == |c.inputs1|
      && (forall f :: f in c.inputs0 ==> f in g.inputs0)
      && (exists newLo, newHi :: GrownFrom(files, parents, g, newLo, newHi))
      && (exists lo2, hi2 :: Grown(files, parents, c, lo, hi, lo2, hi2, maxExpandedBytes, g))
      && IsEnd(g.inputs0, grown.value.1)
    ensures grown.None? ==> exists lo2, hi2 :: CannotGrow(files, parents, c, lo, hi, lo2, hi2, maxExpandedBytes)
  {
    grown := None;
    var expanded0, lo2, hi2 := GetOverlappingInputs(c.level, files, Some(lo), Some(hi));
    assert Expanded(c.level, files, lo, hi, lo2, hi2);
    if |expanded0| > |c.inputs0| && TotalFileSize(c.inputs1) + TotalFileSize(expanded0) < maxExpandedBytes {
      var newStart, newLimit := GetRange(expanded0);
      var expanded1, _, _ := GetOverlappingInputs(c.level + 1, parents, Some(newStart.user), Some(newLimit.user));
      if |expanded1| == |c.inputs1| {
        GrownStarted(c.level, files, parents, c, a, b, lo, hi, expanded0, lo2.value, hi2.value,
                     newStart.user, newLimit.user);
        var g := Compaction(c.level, expanded0, expanded1, []);
        assert GrownFrom(files, parents, g, newStart.user, newLimit.user);
        assert Grown(files, parents, c, lo, hi, lo2, hi2, maxExpandedBytes, g);
        grown := Some((g, newLimit));
      } else {
        assert AddsParent(parents, c, expanded0, newStart.user, newLimit.user);
        assert CannotGrow(files, parents, c, lo, hi, lo2, hi2, maxExpandedBytes);
      }
    } else {
      assert CannotGrow(files, parents, c, lo, hi, lo2, hi2, maxExpandedBytes);
    }
  }

  /** What GetOverlappingInputs stretches the compaction's range to. */
  ghost predicate Expanded(level: nat, files: Level, lo: Key, hi: Key, lo2: Option<Key>, hi2: Option<Key>)
  {
    && Reached(files, Some(lo), Some(hi), lo2, hi2)
    && (if level == 0 then ClosedRange(files, lo2, hi2) else lo2 == Some(lo) && hi2 == Some(hi))
  }

  ghost predicate AddsParent(parents: Level, c: Compaction, inputs0: Level, lo: Key, hi: Key)
  {
    IsHull(inputs0, lo, hi) && |Meeting(parents, Some(lo), Some(hi))| != |c.inputs1|
  }

  /** Nothing to add, or too many bytes, or another parent would come along. */
  ghost predicate CannotGrow(files: Level, parents: Level, c: Compaction, lo: Key, hi: Key, lo2: Option<Key>,
                             hi2: Option<Key>,
                             maxExpandedBytes: nat)
  {
    var expanded0 := Meeting(files, lo2, hi2);
    && Expanded(c.level, files, lo, hi, lo2, hi2)
    && (|| |expanded0| <= |c.inputs0|
        || TotalFileSize(c.inputs1) + TotalFileSize(expanded0) >= maxExpandedBytes
        || exists a, b :: AddsParent(parents, c, expanded0, a, b))
  }

  /** `g` is `c` grown over its whole range: more level inputs, no more parents, few enough bytes. */
  ghost predicate Grown(files: Level, parents: Level, c: Compaction, lo: Key, hi: Key, lo2: Option<Key>,
                        hi2: Option<Key>, maxExpandedBytes: nat, g: Compaction)
  {
    && Expanded(c.level, files, lo, hi, lo2, hi2) && g.level == c.level
    && g.inputs0 == Meeting(files, lo2, hi2) && |g.inputs0| > |c.inputs0|
    && (exists a, b :: IsHull(g.inputs0, a, b) && g.inputs1 == Meeting(parents, Some(a), Some(b)))
    && |g.inputs1| == |c.inputs1|
    && TotalFileSize(c.inputs1) + TotalFileSize(g.inputs0) < maxExpandedBytes
  }

  /** What `first`, whose range is [lo, hi], becomes: grown if it can be, else as it is. */
  ghost predicate GrowsTo(files: Level, parents: Level, first: Compaction, lo: Key, hi: Key, maxExpandedBytes: nat,
                          c: Compaction)
  {
    if |c.inputs0| > |first.inputs0| then
      first.inputs1 != []
      && exists lo2, hi2 :: Grown(files, parents, first, lo, hi, lo2, hi2, maxExpandedBytes, c)
    else
      && c.inputs0 == first.inputs0 && c.inputs1 == first.inputs1
      && (first.inputs1 == []
          || exists lo2, hi2 :: CannotGrow(files, parents, first, lo, hi, lo2, hi2, maxExpandedBytes))
  }

  ghost predicate Completion(files: Level, parents: Level, inputs0: Level, lo0: Key, hi0: Key, lo1: Key, hi1: Key,
                             maxExpandedBytes: nat, c: Compaction)
  {
    var first := Compaction(c.level, inputs0, Meeting(parents, Some(lo0), Some(hi0)), []);
    IsHull(first.Inputs(), lo1, hi1) && GrowsTo(files, parents, first, lo1, hi1, maxExpandedBytes, c)
  }

  /** The inputs of `c` are `inputs0` with the parents it meets, grown if they can grow. */
  ghost predicate Completes(files: Level, parents: Level, inputs0: Level, maxExpandedBytes: nat, c: Compaction)
  {
    exists lo0, hi0, lo1, hi1 ::
      IsHull(inputs0, lo0, hi0) && Completion(files, parents, inputs0, lo0, hi0, lo1, hi1, maxExpandedBytes, c)
  }

  /** The level inputs for a start at `f`: it alone, or at level 0 the files of the least closed range around it. */
  ghost predicate StartsFrom(level: nat, files: Level, f: File, inputs0: Level)
  {
    if level > 0 then inputs0 == [f]
    else exists lo, hi ::
      Expanded(level, files, f.smallest.user, f.largest.user, lo, hi) && inputs0 == Meeting(files, lo, hi)
  }

  /** What a compaction started from `f` is. */
  ghost predicate Chosen(files: Level, parents: Level, grandparents: Level, f: File, maxExpandedBytes: nat,
                         c: Compaction, pointer: IKey, lo: Key, hi: Key)
  {
    && (exists inputs0 ::
        StartsFrom(c.level, files, f, inputs0) && Completes(files, parents, inputs0, maxExpandedBytes, c))
    && IsHull(c.Inputs(), lo, hi) && c.grandparents == Meeting(grandparents, Some(lo), Some(hi))
    && IsEnd(c.inputs0, pointer)
  }

  /** The first file past the pointer, or the first of all when none is past it. */
  ghost predicate IsTurn(files: Level, pointer: Option<IKey>, f: File)
  {
    exists i :: 0 <= i < |files| && TurnAt(files, pointer, i) && files[i] == f
  }

  ghost predicate TurnAt(files: Level, pointer: Option<IKey>, i: nat)
    requires i < |files|
  {
    && (forall j :: 0 <= j < i ==> !PastPointer(files[j], pointer))
    && (PastPointer(files[i], pointer) || (i == 0 && forall g :: g in files ==> !PastPointer(g, pointer)))
  }

  ghost predicate PastPointer(f: File, pointer: Option<IKey>)
  {
    pointer.None? || Before(pointer.value, f.largest)
  }

  /** The first file past the compaction pointer, else the first file. */
  method RoundRobin(files: Level, pointer: Option<IKey>) returns (i: nat)
    requires files != []
    ensures i < |files| && TurnAt(files, pointer, i)
  {
    i := 0;
    while i < |files|
      invariant 0 <= i <= |files|
      invariant forall j :: 0 <= j < i ==> !PastPointer(files[j], pointer)
    {
      if pointer.None? || Before(pointer.value, files[i].largest) {
        return;
      }
      i := i + 1;
    }
    i := 0;
  }

  /** The level below `level`, or no files past the last one. */
  function LevelAt(v: Version, level: nat): Level
  {
    if level < |v| then v[level] else []
  }

  /** Which file the next compaction starts from: by size the one past the
      pointer of the level that most needs it, else the file charged too many seeks. */
  method PickStart(v: Version, sizeLevel: Option<nat>, pointers: seq<Option<IKey>>, seek: Option<(nat, File)>)
    returns (start: Option<(nat, File)>)
    requires |v| == |pointers| == NUM_LEVELS
    requires sizeLevel.Some? ==> sizeLevel.value < NUM_LEVELS - 1 && v[sizeLevel.value] != []
    requires seek.Some? ==> seek.value.0 < NUM_LEVELS - 1 && seek.value.1 in v[seek.value.0]
    ensures start.None? <==> sizeLevel.None? && seek.None?
    ensures start.Some? ==> start.value.0 < NUM_LEVELS - 1 && start.value.1 in v[start.value.0]
    ensures start.Some? ==> IsStart(v, sizeLevel, pointers, seek, start.value.0, start.value.1)
  {
    if sizeLevel.Some? {
      var i := RoundRobin(v[sizeLevel.value], pointers[sizeLevel.value]);
      start := Some((sizeLevel.value, v[sizeLevel.value][i]));
    } else {
      start := seek;
    }
  }

  /** `f` of level `level` is the file the next compaction starts from. */
  ghost predicate IsStart(v: Version, sizeLevel: Option<nat>, pointers: seq<Option<IKey>>, seek: Option<(nat, File)>,
                          level: nat, f: File)
    requires |v| == |pointers| == NUM_LEVELS && (sizeLevel.Some? ==> sizeLevel.value < NUM_LEVELS)
  {
    match sizeLevel
    case Some(l) => level == l && IsTurn(v[l], pointers[l], f)
    case None => seek == Some((level, f))
  }

  /** `c` is the next compaction and `moved` are the pointers then. */
  ghost predicate Picked(v: Version, sizeLevel: Option<nat>, pointers: seq<Option<IKey>>, seek: Option<(nat, File)>,
                         maxExpandedBytes: nat, c: Compaction, moved: seq<Option<IKey>>, lo: Key, hi: Key)
    requires |v| == |pointers| == NUM_LEVELS && (sizeLevel.Some? ==> sizeLevel.value < NUM_LEVELS)
  {
    && c.level < NUM_LEVELS - 1
    && (exists f, pointer ::
        && IsStart(v, sizeLevel, pointers, seek, c.level, f)
        && Chosen(v[c.level], v[c.level + 1], LevelAt(v, c.level + 2), f, maxExpandedBytes, c, pointer, lo, hi)
        && moved == pointers[c.level := Some(pointer)])
  }

  /** Pick the inputs of the next compaction and move the level's pointer. */
  method PickCompaction(v: Version, sizeLevel: Option<nat>, pointers: seq<Option<IKey>>, seek: Option<(nat, File)>,
                        maxExpandedBytes: nat)
    returns (c: Option<Compaction>, newPointers: seq<Option<IKey>>, ghost lo: Key, ghost hi: Key)
    requires LevelsOk(v) && |pointers| == NUM_LEVELS && forall l :: 0 <= l < NUM_LEVELS ==> Distinct(v[l])
    requires sizeLevel.Some? ==> sizeLevel.value < NUM_LEVELS - 1 && v[sizeLevel.value] != []
    requires seek.Some? ==> seek.value.0 < NUM_LEVELS - 1 && seek.value.1 in v[seek.value.0]
    ensures c.None? <==> sizeLevel.None? && seek.None?
    ensures c.None? ==> newPointers == pointers
    ensures c.Some? ==>
      && Picked(v, sizeLevel, pointers, seek, maxExpandedBytes, c.value, newPointers, lo, hi)
      && PickedOk(v[c.value.level], v[c.value.level + 1], c.value, lo, hi)
  {
    hide PickedOk;
    hide FilesOk;
    hide DisjointSorted;
    hide Distinct;
    hide IsTurn;
    hide Chosen;
    newPointers, lo, hi := pointers, 0.0, 0.0;
    var start := PickStart(v, sizeLevel, pointers, seek);
    if start.None? {
      return None, newPointers, lo, hi;
    }
    var level, f := start.value.0, start.value.1;
    var files, parents := v[level], v[level + 1];
    var picked, pointer;
    picked, pointer, lo, hi := CompactFrom(level, files, parents, LevelAt(v, level + 2), f, maxExpandedBytes);
    newPointers := pointers[level := Some(pointer)];
    c := Some(picked);
  }

  /** Set up the compaction that starts from file `f`; at level 0 every file
      that overlaps it, directly or through others, comes along. */
  method CompactFrom(level: nat, files: Level, parents: Level, grandparents: Level, f: File, maxExpandedBytes: nat)
    returns (c: Compaction, pointer: IKey, ghost lo: Key, ghost hi: Key)
    requires FilesOk(files) && (level > 0 ==> DisjointSorted(files)) && Distinct(files) && f in files
    requires FilesOk(parents) && DisjointSorted(parents) && Distinct(parents)
    ensures c.level == level && PickedOk(files, parents, c, lo, hi) && f in c.inputs0
    ensures Chosen(files, parents, grandparents, f, maxExpandedBytes, c, pointer, lo, hi)
  {
    hide Completes;
    hide IsEnd;
    var inputs0 := [f];
    ghost var lo0, hi0 := f.smallest.user, f.largest.user;
    if level == 0 {
      ghost var lo2, hi2;
      inputs0, lo2, hi2 := GetOverlappingInputs(0, files, Some(f.smallest.user), Some(f.largest.user));
      lo0, hi0 := StartAtLevelZero(files, parents, f, inputs0, lo2.value, hi2.value);
      assert Expanded(level, files, f.smallest.user, f.largest.user, lo2, hi2);
    } else {
      StartDeeper(files, parents, f);
    }
    c, pointer, lo, hi := SetupOtherInputs(level, files, parents, grandparents, inputs0, maxExpandedBytes, lo0, hi0);
  }

  lemma StartAtLevelZero(files: Level, parents: Level, f: File, inputs0: Level, lo2: Key, hi2: Key)
    returns (lo0: Key, hi0: Key)
    requires FilesOk(files) && Distinct(files) && f in files
    requires inputs0 == Meeting(files, Some(lo2), Some(hi2)) && ClosedRange(files, Some(lo2), Some(hi2))
    requires Reached(files, Some(f.smallest.user), Some(f.largest.user), Some(lo2), Some(hi2))
    ensures Started(files, parents, inputs0, lo0, hi0) && f in inputs0
  {
    NonemptyRange(files, f);
    MeetingDistinct(files, Some(lo2), Some(hi2));
    assert f in inputs0;
    lo0, hi0 := HullExists(inputs0);
    GrownIsolated(0, files, lo2, hi2, inputs0);
    forall k | lo0 <= k <= hi0
      ensures SomeCovers(inputs0 + Meeting(parents, Some(lo0), Some(hi0)), k)
    {
      GrownKeys(files, f.smallest.user, f.largest.user, inputs0, lo2, hi2, lo0, hi0, k);
      assert Covers(f, k) || SomeCovers(inputs0, k);
      var g :| g in inputs0 && Covers(g, k);
      assert g in inputs0 + Meeting(parents, Some(lo0), Some(hi0));
    }
  }

  lemma StartDeeper(files: Level, parents: Level, f: File)
    requires FilesOk(files) && DisjointSorted(files) && f in files
    ensures Started(files, parents, [f], f.smallest.user, f.largest.user)
  {
    NonemptyRange(files, f);
    forall g | g in files && g != f
      ensures !MeetsRange(g, f.smallest.user, f.largest.user)
    {
      var i :| 0 <= i < |files| && files[i] == f;
      var j :| 0 <= j < |files| && files[j] == g;
    }
    assert f in [f] + Meeting(parents, Some(f.smallest.user), Some(f.largest.user));
  }

  lemma {:induction false} HullExists(files: Level) returns (lo: Key, hi: Key)
    requires files != []
    ensures IsHull(files, lo, hi)
  {
    var f := files[0];
    lo, hi := f.smallest.user, f.largest.user;
    if |files| > 1 {
      var a, b := HullExists(files[1..]);
      lo, hi := if a < lo then a else lo, if b > hi then b else hi;
      var g :| g in files[1..] && g.smallest.user == a;
      var h :| h in files[1..] && h.largest.user == b;
      assert files == [f] + files[1..];
      assert f in files && g in files && h in files;
    }
  }

  // ----- the choice is determined -----

  lemma OneHull(files: Level, lo: Key, hi: Key, lo2: Key, hi2: Key)
    requires IsHull(files, lo, hi) && IsHull(files, lo2, hi2)
    ensures lo == lo2 && hi == hi2
  {
    HullInside(files, files, lo, hi, lo2, hi2);
    HullInside(files, files, lo2, hi2, lo, hi);
  }

  lemma OneEnd(files: Level, a: IKey, b: IKey)
    requires IsEnd(files, a) && IsEnd(files, b)
    ensures a == b
  {
    var f :| f in files && f.largest == a;
    var g :| g in files && g.largest == b;
    assert !Before(a, g.largest) && !Before(b, f.largest);
  }

  /** The least closed range around a range is one range. */
  lemma OneRange(level: nat, files: Level, lo: Key, hi: Key, a: Option<Key>, b: Option<Key>, c: Option<Key>,
                 d: Option<Key>)
    requires Expanded(level, files, lo, hi, a, b) && Expanded(level, files, lo, hi, c, d)
    ensures a == c && b == d
  {
    if level == 0 {
      assert Contains(c, d, a, b) && Contains(a, b, c, d);
    }
  }

  lemma OneTurn(files: Level, pointer: Option<IKey>, f: File, g: File)
    requires IsTurn(files, pointer, f) && IsTurn(files, pointer, g)
    ensures f == g
  {
    var i: nat :| i < |files| && TurnAt(files, pointer, i) && files[i] == f;
    var j: nat :| j < |files| && TurnAt(files, pointer, j) && files[j] == g;
    assert i == j;
  }

  /** The conditions of growing, seen from the least closed range. */
  lemma GrownNotStuck(files: Level, parents: Level, c: Compaction, lo: Key, hi: Key, maxExpandedBytes: nat,
                      g: Compaction, a: Option<Key>, b: Option<Key>, a2: Option<Key>, b2: Option<Key>)
    requires Grown(files, parents, c, lo, hi, a, b, maxExpandedBytes, g)
    ensures !CannotGrow(files, parents, c, lo, hi, a2, b2, maxExpandedBytes)
  {
    hide IsHull;
    hide Meeting;
    if Expanded(c.level, files, lo, hi, a2, b2) {
      OneRange(c.level, files, lo, hi, a, b, a2, b2);
      var x, y :| IsHull(g.inputs0, x, y) && g.inputs1 == Meeting(parents, Some(x), Some(y));
      forall p, q
        ensures !AddsParent(parents, c, g.inputs0, p, q)
      {
        if IsHull(g.inputs0, p, q) {
          OneHull(g.inputs0, x, y, p, q);
        }
      }
    }
  }

  lemma OneGrowth(files: Level, parents: Level, first: Compaction, lo: Key, hi: Key, maxExpandedBytes: nat,
                  c: Compaction, d: Compaction)
    requires GrowsTo(files, parents, first, lo, hi, maxExpandedBytes, c)
    requires GrowsTo(files, parents, first, lo, hi, maxExpandedBytes, d)
    ensures c.inputs0 == d.inputs0 && c.inputs1 == d.inputs1
  {
    hide Grown;
    hide CannotGrow;
    if |c.inputs0| > |first.inputs0| {
      GrewAsWell(files, parents, first, lo, hi, maxExpandedBytes, c, d);
    } else if |d.inputs0| > |first.inputs0| {
      GrewAsWell(files, parents, first, lo, hi, maxExpandedBytes, d, c);
    }
  }

  lemma GrewAsWell(files: Level, parents: Level, first: Compaction, lo: Key, hi: Key, maxExpandedBytes: nat,
                   c: Compaction, d: Compaction)
    requires GrowsTo(files, parents, first, lo, hi, maxExpandedBytes, c) && |c.inputs0| > |first.inputs0|
    requires GrowsTo(files, parents, first, lo, hi, maxExpandedBytes, d)
    ensures c.inputs0 == d.inputs0 && c.inputs1 == d.inputs1
  {
    hide Grown;
    hide CannotGrow;
    var a, b :| Grown(files, parents, first, lo, hi, a, b, maxExpandedBytes, c);
    forall a2, b2
      ensures !CannotGrow(files, parents, first, lo, hi, a2, b2, maxExpandedBytes)
    {
      GrownNotStuck(files, parents, first, lo, hi, maxExpandedBytes, c, a, b, a2, b2);
    }
    var p, q :| Grown(files, parents, first, lo, hi, p, q, maxExpandedBytes, d);
    SameGrowth(files, parents, first, lo, hi, maxExpandedBytes, c, a, b, d, p, q);
  }

  lemma SameGrowth(files: Level, parents: Level, first: Compaction, lo: Key, hi: Key, maxExpandedBytes: nat,
                   c: Compaction, a: Option<Key>, b: Option<Key>, d: Compaction, p: Option<Key>, q: Option<Key>)
    requires Grown(files, parents, first, lo, hi, a, b, maxExpandedBytes, c)
    requires Grown(files, parents, first, lo, hi, p, q, maxExpandedBytes, d)
    ensures c.inputs0 == d.inputs0 && c.inputs1 == d.inputs1
  {
    hide IsHull;
    hide Meeting;
    OneRange(first.level, files, lo, hi, a, b, p, q);
    var x, y :| IsHull(c.inputs0, x, y) && c.inputs1 == Meeting(parents, Some(x), Some(y));
    var z, w :| IsHull(d.inputs0, z, w) && d.inputs1 == Meeting(parents, Some(z), Some(w));
    OneHull(c.inputs0, x, y, z, w);
  }

  lemma OneCompletion(files: Level, parents: Level, inputs0: Level, maxExpandedBytes: nat, c: Compaction,
                      d: Compaction)
    requires Completes(files, parents, inputs0, maxExpandedBytes, c) && c.level == d.level
    requires Completes(files, parents, inputs0, maxExpandedBytes, d)
    ensures c.inputs0 == d.inputs0 && c.inputs1 == d.inputs1
  {
    hide IsHull;
    hide Meeting;
    hide GrowsTo;
    var a0, b0, a1, b1 :|
      IsHull(inputs0, a0, b0) && Completion(files, parents, inputs0, a0, b0, a1, b1, maxExpandedBytes, c);
    var p0, q0, p1, q1 :|
      IsHull(inputs0, p0, q0) && Completion(files, parents, inputs0, p0, q0, p1, q1, maxExpandedBytes, d);
    OneHull(inputs0, a0, b0, p0, q0);
    var first := Compaction(c.level, inputs0, Meeting(parents, Some(a0), Some(b0)), []);
    OneHull(first.Inputs(), a1, b1, p1, q1);
    OneGrowth(files, parents, first, a1, b1, maxExpandedBytes, c, d);
  }

  lemma OneChoice(files: Level, parents: Level, grandparents: Level, f: File, maxExpandedBytes: nat,
                  c: Compaction, pointer: IKey, lo: Key, hi: Key, d: Compaction, pointer2: IKey, lo2: Key, hi2: Key)
    requires Chosen(files, parents, grandparents, f, maxExpandedBytes, c, pointer, lo, hi) && c.level == d.level
    requires Chosen(files, parents, grandparents, f, maxExpandedBytes, d, pointer2, lo2, hi2)
    ensures c == d && pointer == pointer2 && lo == lo2 && hi == hi2
  {
    hide IsHull;
    hide Meeting;
    hide IsEnd;
    hide Completes;
    var a :| StartsFrom(c.level, files, f, a) && Completes(files, parents, a, maxExpandedBytes, c);
    var b :| StartsFrom(d.level, files, f, b) && Completes(files, parents, b, maxExpandedBytes, d);
    if c.level == 0 {
      var p, q :| Expanded(0, files, f.smallest.user, f.largest.user, p, q) && a == Meeting(files, p, q);
      var x, y :| Expanded(0, files, f.smallest.user, f.largest.user, x, y) && b == Meeting(files, x, y);
      OneRange(0, files, f.smallest.user, f.largest.user, p, q, x, y);
    }
    OneCompletion(files, parents, a, maxExpandedBytes, c, d);
    OneHull(c.Inputs(), lo, hi, lo2, hi2);
    OneEnd(c.inputs0, pointer, pointer2);
  }

  /** There is one next compaction: inputs, grandparents and pointers are given by
      the version, the level or file to start from, and the byte limit. */
  lemma PickedOnce(v: Version, sizeLevel: Option<nat>, pointers: seq<Option<IKey>>, seek: Option<(nat, File)>,
                   maxExpandedBytes: nat, c: Compaction, moved: seq<Option<IKey>>, lo: Key, hi: Key,
                   d: Compaction, moved2: seq<Option<IKey>>, lo2: Key, hi2: Key)
    requires |v| == |pointers| == NUM_LEVELS && (sizeLevel.Some? ==> sizeLevel.value < NUM_LEVELS)
    requires Picked(v, sizeLevel, pointers, seek, maxExpandedBytes, c, moved, lo, hi)
    requires Picked(v, sizeLevel, pointers, seek, maxExpandedBytes, d, moved2, lo2, hi2)
    ensures c == d && moved == moved2 && lo == lo2 && hi == hi2
  {
    hide Chosen;
    hide IsTurn;
    var f, p :|
      && IsStart(v, sizeLevel, pointers, seek, c.level, f)
      && Chosen(v[c.level], v[c.level + 1], LevelAt(v, c.level + 2), f, maxExpandedBytes, c, p, lo, hi)
      && moved == pointers[c.level := Some(p)];
    var g, q :|
      && IsStart(v, sizeLevel, pointers, seek, d.level, g)
      && Chosen(v[d.level], v[d.level + 1], LevelAt(v, d.level + 2), g, maxExpandedBytes, d, q, lo2, hi2)
      && moved2 == pointers[d.level := Some(q)];
    if sizeLevel.Some? {
      OneTurn(v[c.level], pointers[c.level], f, g);
    }
    OneChoice(v[c.level], v[c.level + 1], LevelAt(v, c.level + 2), f, maxExpandedBytes, c, p, lo, hi, d, q, lo2, hi2);
  }
}
