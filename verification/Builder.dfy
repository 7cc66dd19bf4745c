/** Version edits and their application (db/version_set.cc, class
    VersionSet::Builder, WriteSnapshot, the replay loop of Recover). */
module Builder {
  import opened Wrappers
  import opened Keys
  import opened Files

  datatype Edit = Edit(
    comparator: Option<seq<Byte>>,
    logNumber: Option<nat>,
    prevLogNumber: Option<nat>,
    nextFile: Option<nat>,
    lastSequence: Option<nat>,
    compactPointers: seq<(nat, IKey)>,
    deleted: set<(nat, nat)>,
    added: seq<(nat, File)>)

  ghost predicate EditOk(e: Edit)
  {
    && (forall p :: p in e.compactPointers ==> p.0 < NUM_LEVELS)
    && (forall d :: d in e.deleted ==> d.0 < NUM_LEVELS)
    && (forall a :: a in e.added ==> a.0 < NUM_LEVELS)
  }

  ghost predicate AddsFile(e: Edit, l: nat, f: File)
  {
    (l, f) in e.added
  }

  ghost predicate AddsNumber(e: Edit, l: nat, number: nat)
  {
    exists f :: AddsFile(e, l, f) && f.number == number
  }

  /** File `f` is deleted by the edit and not put back by it. */
  ghost predicate Removes(e: Edit, l: nat, number: nat)
  {
    (l, number) in e.deleted && !AddsNumber(e, l, number)
  }

  /** `next` is `v` with one edit applied, every level in file order. */
  ghost predicate AfterEdit(v: Version, e: Edit, next: Version)
  {
    && |v| == |next| == NUM_LEVELS
    && forall l :: 0 <= l < NUM_LEVELS ==>
      SortedBySmallest(next[l]) && forall f :: f in next[l] <==> Keeps(v, e, l, f)
  }

  ghost predicate Keeps(v: Version, e: Edit, l: nat, f: File)
    requires |v| == NUM_LEVELS && l < NUM_LEVELS
  {
    (f in v[l] || AddsFile(e, l, f)) && !Removes(e, l, f.number)
  }

  lemma SmallestOrder(f: File, g: File, h: File)
    ensures BySmallestKey(f, g) && BySmallestKey(g, h) ==> BySmallestKey(f, h)
    ensures !(BySmallestKey(f, g) && BySmallestKey(g, f))
    ensures BySmallestKey(f, g) || BySmallestKey(g, f) || (f.smallest == g.smallest && f.number == g.number)
  {
  }

  /** A sorted level is determined by its files. */
  lemma {:induction false} SortedLevelsEqual(a: Level, b: Level)
    requires SortedBySmallest(a) && SortedBySmallest(b)
    requires forall f :: f in a <==> f in b
    ensures a == b
  {
    assert a != [] ==> a[0] in a;
    assert b != [] ==> b[0] in b;
    if a != [] && b != [] {
      var i :| 0 <= i < |b| && b[i] == a[0];
      var j :| 0 <= j < |a| && a[j] == b[0];
      SmallestOrder(a[0], b[0], a[0]);
      assert a[0] == b[0];
      forall f
        ensures f in a[1..] <==> f in b[1..]
      {
        TailMembers(a, f);
        TailMembers(b, f);
      }
      SortedLevelsEqual(a[1..], b[1..]);
      assert a == [a[0]] + a[1..] && b == [b[0]] + b[1..];
    }
  }

  lemma TailMembers(a: Level, f: File)
    requires a != [] && SortedBySmallest(a)
    ensures f in a[1..] <==> f in a && f != a[0]
  {
    SmallestOrder(a[0], a[0], a[0]);
    if f in a && f != a[0] {
      var i :| 0 <= i < |a| && a[i] == f;
      assert a[1..][i - 1] == f;
    }
  }

  /** The pending changes of one level: numbers to drop, files to merge in. */
  datatype LevelState = LevelState(deleted: set<nat>, added: Level)

  ghost predicate Merged(base: Level, s: LevelState, f: File)
  {
    (f in base || f in s.added) && f.number !in s.deleted
  }

  ghost predicate PairwiseDisjoint(files: iset<File>)
  {
    forall f, g :: f in files && g in files && f != g ==>
      f.largest.user < g.smallest.user || g.largest.user < f.smallest.user
  }

  ghost predicate DistinctNumbers(files: iset<File>)
  {
    forall f, g :: f in files && g in files && f.number == g.number ==> f == g
  }

  ghost function MergedSet(base: Level, s: LevelState): iset<File>
  {
    iset f | Merged(base, s, f)
  }

  /** What has been pending before edit `e`, plus `e`. */
  ghost predicate Applied(old0: LevelState, l: nat, e: Edit, s: LevelState)
  {
    && SortedBySmallest(s.added)
    && (forall f :: f in s.added <==> f in old0.added || AddsFile(e, l, f))
    && (forall n :: n in s.deleted <==> (n in old0.deleted || (l, n) in e.deleted) && !AddsNumber(e, l, n))
  }

  /** std::set insertion in (smallest, number) order. */
  method InsertSorted(files: Level, f: File) returns (r: Level)
    requires SortedBySmallest(files)
    requires forall g :: g in files && g.number == f.number ==> g == f
    ensures SortedBySmallest(r)
    ensures forall g :: g in r <==> g in files || g == f
  {
    var i := 0;
    while i < |files| && BySmallestKey(files[i], f)
      invariant 0 <= i <= |files|
      invariant forall j :: 0 <= j < i ==> BySmallestKey(files[j], f)
    {
      i := i + 1;
    }
    if i < |files| && !BySmallestKey(f, files[i]) {
      r := files;
      assert files[i] in files;
    } else {
      r := files[..i] + [f] + files[i..];
      InsertionSorted(files, f, i);
    }
  }

  lemma InsertionSorted(files: Level, f: File, i: nat)
    requires SortedBySmallest(files) && i <= |files|
    requires forall j :: 0 <= j < i ==> BySmallestKey(files[j], f)
    requires i < |files| ==> BySmallestKey(f, files[i])
    ensures SortedBySmallest(files[..i] + [f] + files[i..])
    ensures forall g :: g in files[..i] + [f] + files[i..] <==> g in files || g == f
  {
    forall j | i <= j < |files|
      ensures BySmallestKey(f, files[j])
    {
      if i < j {
        SmallestOrder(f, files[i], files[j]);
      }
    }
    assert files == files[..i] + files[i..];
  }

  class VersionBuilder {
    const base: Version
    var levels: seq<LevelState>
    var compactPointers: seq<Option<IKey>>

    constructor (base: Version, pointers: seq<Option<IKey>>)
      requires |base| == NUM_LEVELS && |pointers| == NUM_LEVELS
      ensures this.base == base && compactPointers == pointers
      ensures levels == seq(NUM_LEVELS, i => LevelState({}, []))
    {
      this.base, compactPointers := base, pointers;
      levels := seq(NUM_LEVELS, i => LevelState({}, []));
    }

    ghost predicate Shape()
      reads this
    {
      |base| == NUM_LEVELS && |levels| == NUM_LEVELS && |compactPointers| == NUM_LEVELS
    }

    /** Fold one edit into the pending changes. */
    method Apply(e: Edit)
      requires Shape() && EditOk(e)
      requires forall l :: 0 <= l < NUM_LEVELS ==> SortedBySmallest(levels[l].added)
      requires forall l :: 0 <= l < NUM_LEVELS ==> CanAdd(levels[l], l, e)
      modifies this
      ensures Shape()
      ensures forall l :: 0 <= l < NUM_LEVELS ==> Applied(old(levels)[l], l, e, levels[l])
      ensures compactPointers == MovePointers(old(compactPointers), e.compactPointers)
    {
      compactPointers := MovePointers(compactPointers, e.compactPointers);
      var before := levels;
      levels := seq(NUM_LEVELS, l requires 0 <= l < NUM_LEVELS => LevelState(
        before[l].deleted + set d | d in e.deleted && d.0 == l :: d.1, before[l].added));
      var i := 0;
      while i < |e.added|
        invariant 0 <= i <= |e.added| && Shape()
        invariant compactPointers == MovePointers(old(compactPointers), e.compactPointers)
        invariant forall l :: 0 <= l < NUM_LEVELS ==> AppliedPrefix(before[l], l, e, i, levels[l])
      {
        var l, f := e.added[i].0, e.added[i].1;
        assert e.added[i] in e.added;
        assert CanAdd(before[l], l, e);
        AddedDistinct(before[l], l, e, i, levels[l], f);
        var files := InsertSorted(levels[l].added, f);
        levels := levels[l := LevelState(levels[l].deleted - {f.number}, files)];
        assert e.added[..i + 1] == e.added[..i] + [e.added[i]];
        i := i + 1;
      }
      assert e.added[..|e.added|] == e.added;
    }

    /** Merge the pending changes of every level into a new version. */
    method SaveTo() returns (v: Version)
      requires Shape()
      requires forall l :: 0 <= l < NUM_LEVELS ==> CanSave(l, base[l], levels[l])
      ensures |v| == NUM_LEVELS
      ensures forall l :: 0 <= l < NUM_LEVELS ==> SortedBySmallest(v[l]) && (l > 0 ==> DisjointSorted(v[l]))
      ensures forall l, f :: 0 <= l < NUM_LEVELS ==> (f in v[l] <==> Merged(base[l], levels[l], f))
    {
      v := [];
      while |v| < NUM_LEVELS
        invariant |v| <= NUM_LEVELS
        invariant forall l :: 0 <= l < |v| ==> SortedBySmallest(v[l]) && (l > 0 ==> DisjointSorted(v[l]))
        invariant forall l, f :: 0 <= l < |v| ==> (f in v[l] <==> Merged(base[l], levels[l], f))
      {
        var files := SaveLevel(|v|, base[|v|], levels[|v|]);
        v := v + [files];
      }
    }
  }

  /** compact_pointer_ after a list of updates: the last one of a level wins. */
  function MovePointers(pointers: seq<Option<IKey>>, updates: seq<(nat, IKey)>): (r: seq<Option<IKey>>)
    requires forall u :: u in updates ==> u.0 < |pointers|
    ensures |r| == |pointers|
    decreases |updates|
  {
    if updates == [] then pointers
    else MovePointers(pointers[updates[0].0 := Some(updates[0].1)], updates[1..])
  }

  /** A number already pending at the level, or added twice, means the same file. */
  ghost predicate CanAdd(s: LevelState, l: nat, e: Edit)
  {
    forall f, g :: AddsFile(e, l, f) && (g in s.added || AddsFile(e, l, g)) && f.number == g.number ==> f == g
  }

  ghost predicate AppliedPrefix(old0: LevelState, l: nat, e: Edit, n: nat, s: LevelState)
    requires n <= |e.added|
  {
    && SortedBySmallest(s.added)
    && (forall f :: f in s.added <==> f in old0.added || (l, f) in e.added[..n])
    && (forall m :: m in s.deleted <==>
      (m in old0.deleted || (l, m) in e.deleted) && !(exists f :: (l, f) in e.added[..n] && f.number == m))
  }

  lemma AddedDistinct(old0: LevelState, l: nat, e: Edit, n: nat, s: LevelState, f: File)
    requires n <= |e.added| && AppliedPrefix(old0, l, e, n, s) && CanAdd(old0, l, e) && AddsFile(e, l, f)
    ensures forall g :: g in s.added && g.number == f.number ==> g == f
  {
    forall g | g in s.added && g.number == f.number
      ensures g == f
    {
      assert g in old0.added || AddsFile(e, l, g);
    }
  }

  ghost predicate CanSave(l: nat, base: Level, s: LevelState)
  {
    && SortedBySmallest(base) && SortedBySmallest(s.added)
    && DistinctNumbers(MergedSet(base, s)) && (forall f :: f in base ==> f !in s.added)
    && (l > 0 ==> PairwiseDisjoint(MergedSet(base, s)))
    && (forall f :: Merged(base, s, f) ==> f.smallest.user <= f.largest.user)
  }

  /** Merge base files and added files in order, dropping deleted numbers. */
  method SaveLevel(l: nat, base: Level, s: LevelState) returns (v: Level)
    requires CanSave(l, base, s)
    ensures SortedBySmallest(v) && (l > 0 ==> DisjointSorted(v))
    ensures forall f :: f in v <==> Merged(base, s, f)
  {
    v := [];
    var b, a := 0, 0;
    while a < |s.added|
      invariant Merging(l, base, s, b, a, v)
    {
      while b < |base| && !BySmallestKey(s.added[a], base[b])
        invariant Merging(l, base, s, b, a, v)
      {
        FromBase(l, base, s, b, a, v);
        v := MaybeAddFile(l, s, v, base[b]);
        b := b + 1;
      }
      FromAdded(l, base, s, b, a, v);
      v := MaybeAddFile(l, s, v, s.added[a]);
      a := a + 1;
    }
    while b < |base|
      invariant Merging(l, base, s, b, a, v)
      invariant a == |s.added|
    {
      FromBase(l, base, s, b, a, v);
      v := MaybeAddFile(l, s, v, base[b]);
      b := b + 1;
    }
    assert base[..b] == base && s.added[..a] == s.added;
  }

  /** Append unless deleted; a level past 0 never gets an overlapping file. */
  method MaybeAddFile(l: nat, s: LevelState, files: Level, f: File) returns (r: Level)
    requires l > 0 && files != [] && f.number !in s.deleted ==> Before(files[|files| - 1].largest, f.smallest)
    ensures r == Appended(s, files, f)
  {
    if f.number in s.deleted {
      r := files;
    } else {
      assert l > 0 && files != [] ==> Before(files[|files| - 1].largest, f.smallest);
      r := files + [f];
    }
  }

  function Appended(s: LevelState, files: Level, f: File): Level
  {
    if f.number in s.deleted then files else files + [f]
  }

  /** `v` is the merge of the first `b` base files and the first `a` added
      files, and nothing still to come belongs before its end. */
  ghost predicate Merging(l: nat, base: Level, s: LevelState, b: nat, a: nat, v: Level)
  {
    && b <= |base| && a <= |s.added|
    && SortedBySmallest(v) && (l > 0 ==> DisjointSorted(v))
    && (forall f :: f in v <==> (f in base[..b] || f in s.added[..a]) && f.number !in s.deleted)
    && (forall f, i :: f in v && b <= i < |base| && base[i].number !in s.deleted ==> BySmallestKey(f, base[i]))
    && (forall f, i :: f in v && a <= i < |s.added| && s.added[i].number !in s.deleted ==> BySmallestKey(f, s.added[i]))
  }

  lemma AppendOne(l: nat, base: Level, s: LevelState, v: Level, f: File)
    requires CanSave(l, base, s) && Merged(base, s, f)
    requires forall g :: g in v ==> Merged(base, s, g) && BySmallestKey(g, f)
    requires SortedBySmallest(v) && (l > 0 ==> DisjointSorted(v))
    ensures SortedBySmallest(v + [f]) && (l > 0 ==> DisjointSorted(v + [f]))
    ensures l > 0 && v != [] ==> Before(v[|v| - 1].largest, f.smallest)
  {
    forall g | g in v && l > 0
      ensures g.largest.user < f.smallest.user
    {
      SmallestOrder(g, f, g);
      assert g in MergedSet(base, s) && f in MergedSet(base, s);
    }
    if v != [] {
      assert v[|v| - 1] in v;
    }
  }

  lemma FromBase(l: nat, base: Level, s: LevelState, b: nat, a: nat, v: Level)
    requires CanSave(l, base, s) && Merging(l, base, s, b, a, v)
    requires b < |base| && (a < |s.added| ==> !BySmallestKey(s.added[a], base[b]))
    ensures Merging(l, base, s, b + 1, a, Appended(s, v, base[b]))
    ensures l > 0 && v != [] && base[b].number !in s.deleted ==> Before(v[|v| - 1].largest, base[b].smallest)
  {
    var f := base[b];
    assert base[..b + 1] == base[..b] + [f];
    if f.number !in s.deleted {
      AppendOne(l, base, s, v, f);
      forall i | a <= i < |s.added| && s.added[i].number !in s.deleted
        ensures BySmallestKey(f, s.added[i])
      {
        SmallestOrder(f, s.added[a], s.added[i]);
        SmallestOrder(s.added[a], s.added[i], f);
        SmallestOrder(f, s.added[i], f);
        assert f in MergedSet(base, s) && s.added[i] in MergedSet(base, s);
      }
    }
  }

  lemma FromAdded(l: nat, base: Level, s: LevelState, b: nat, a: nat, v: Level)
    requires CanSave(l, base, s) && Merging(l, base, s, b, a, v)
    requires a < |s.added| && (b < |base| ==> BySmallestKey(s.added[a], base[b]))
    ensures Merging(l, base, s, b, a + 1, Appended(s, v, s.added[a]))
    ensures l > 0 && v != [] && s.added[a].number !in s.deleted ==> Before(v[|v| - 1].largest, s.added[a].smallest)
  {
    var f := s.added[a];
    assert s.added[..a + 1] == s.added[..a] + [f];
    if f.number !in s.deleted {
      AppendOne(l, base, s, v, f);
      forall i | b <= i < |base|
        ensures BySmallestKey(f, base[i])
      {
        SmallestOrder(f, base[b], base[i]);
      }
    }
  }
}
