/** Which files meet a key range (db/version_set.cc, SomeFileOverlapsRange,
    GetOverlappingInputs, PickLevelForMemTableOutput, GetRange). */
module Overlap {
  import opened Wrappers
  import opened Keys
  import opened Files
  import VersionGet

  ghost predicate SomeMeets(files: Level, lo: Option<Key>, hi: Option<Key>)
  {
    exists f :: f in files && Meets(f, lo, hi)
  }

  method SomeFileOverlapsRange(disjointSorted: bool, files: Level, lo: Option<Key>, hi: Option<Key>)
    returns (overlaps: bool)
    requires FilesOk(files)
    requires disjointSorted ==> DisjointSorted(files)
    ensures overlaps <==> SomeMeets(files, lo, hi)
  {
    if !disjointSorted {
      var i := 0;
      while i < |files|
        invariant 0 <= i <= |files|
        invariant forall j :: 0 <= j < i ==> !Meets(files[j], lo, hi)
      {
        if Meets(files[i], lo, hi) {
          return true;
        }
        i := i + 1;
      }
      return false;
    }
    var index := 0;
    if lo.Some? {
      index := VersionGet.FindFile(files, IKey(lo.value, Pack(MAX_SEQUENCE, TYPE_FOR_SEEK)));
      LargestBeforeStart(files, lo.value);
    }
    VersionGet.FileBounds(files);
    if index >= |files| {
      return false;
    }
    overlaps := !(hi.Some? && hi.value < files[index].smallest.user);
    if overlaps {
      assert Meets(files[index], lo, hi);
    }
  }

  lemma LargestBeforeStart(files: Level, lo: Key)
    requires FilesOk(files)
    ensures forall i :: 0 <= i < |files| ==>
      (Before(files[i].largest, IKey(lo, Pack(MAX_SEQUENCE, TYPE_FOR_SEEK))) <==> files[i].largest.user < lo)
  {
    forall i | 0 <= i < |files|
      ensures files[i].largest.tag <= Pack(MAX_SEQUENCE, TYPE_FOR_SEEK)
    {
      assert FileOk(files[i]);
      assert files[i].entries[|files[i].entries| - 1] in files[i].entries;
    }
  }

  /** Every file that meets [lo, hi] lies inside it. */
  ghost predicate ClosedRange(files: Level, lo: Option<Key>, hi: Option<Key>)
  {
    forall f :: f in files && Meets(f, lo, hi) ==>
      (lo.Some? ==> lo.value <= f.smallest.user) && (hi.Some? ==> f.largest.user <= hi.value)
  }

  /** [lo2, hi2] contains [lo, hi]. */
  ghost predicate Contains(lo2: Option<Key>, hi2: Option<Key>, lo: Option<Key>, hi: Option<Key>)
  {
    && (lo.None? ==> lo2.None?) && (lo.Some? && lo2.Some? ==> lo2.value <= lo.value)
    && (hi.None? ==> hi2.None?) && (hi.Some? && hi2.Some? ==> hi.value <= hi2.value)
  }

  ghost predicate InRange(k: Key, lo: Option<Key>, hi: Option<Key>)
  {
    (lo.Some? ==> lo.value <= k) && (hi.Some? ==> k <= hi.value)
  }

  /** Key `k` is in the asked range or inside a file that meets [lo2, hi2]. */
  ghost predicate Explained(files: Level, k: Key, lo: Option<Key>, hi: Option<Key>, lo2: Option<Key>, hi2: Option<Key>)
  {
    InRange(k, lo, hi) || exists f :: f in files && Meets(f, lo2, hi2) && Covers(f, k)
  }

  /** Exactly the files of `files`, in order, that meet [lo, hi]. */
  function Meeting(files: Level, lo: Option<Key>, hi: Option<Key>): (r: Level)
    ensures forall f :: f in r <==> f in files && Meets(f, lo, hi)
    ensures |r| <= |files|
  {
    if files == [] then []
    else
      var last := files[|files| - 1];
      assert files == files[..|files| - 1] + [last];
      Meeting(files[..|files| - 1], lo, hi) + if Meets(last, lo, hi) then [last] else []
  }

  lemma {:induction false} MeetingDistinct(files: Level, lo: Option<Key>, hi: Option<Key>)
    requires Distinct(files)
    ensures Distinct(Meeting(files, lo, hi))
  {
    if files != [] {
      var init, last := files[..|files| - 1], files[|files| - 1];
      MeetingDistinct(init, lo, hi);
      assert forall g :: g in Meeting(init, lo, hi) ==> g in init && g != last;
    }
  }

  /** The first `i` files have been scanned without widening the range. */
  ghost predicate Scanned(level: nat, files: Level, i: nat, lo: Option<Key>, hi: Option<Key>, inputs: Level)
    requires i <= |files|
  {
    inputs == Meeting(files[..i], lo, hi) && (level == 0 ==> ClosedRange(files[..i], lo, hi))
  }

  ghost predicate SticksOut(f: File, lo: Option<Key>, hi: Option<Key>)
  {
    (lo.Some? && f.smallest.user < lo.value) || (hi.Some? && f.largest.user > hi.value)
  }

  lemma ScanOne(level: nat, files: Level, i: nat, lo: Option<Key>, hi: Option<Key>, inputs: Level)
    requires i < |files| && Scanned(level, files, i, lo, hi, inputs)
    ensures !Meets(files[i], lo, hi) ==> Scanned(level, files, i + 1, lo, hi, inputs)
    ensures Meets(files[i], lo, hi) && (level == 0 ==> !SticksOut(files[i], lo, hi)) ==>
      Scanned(level, files, i + 1, lo, hi, inputs + [files[i]])
  {
    assert files[..i + 1][..i] == files[..i];
    assert files[..i + 1] == files[..i] + [files[i]];
  }

  /** Files that reach below the range, and files that reach above it. */
  ghost function Below(files: Level, lo: Option<Key>): set<File>
  {
    set f | f in files && lo.Some? && f.smallest.user < lo.value
  }

  ghost function Above(files: Level, hi: Option<Key>): set<File>
  {
    set f | f in files && hi.Some? && f.largest.user > hi.value
  }

  lemma FewerOutside(small: set<File>, large: set<File>, f: File)
    requires small <= large && f in large && f !in small
    ensures |small| < |large|
  {
    assert small <= large - {f};
    SubsetSize(small, large - {f});
  }

  lemma {:induction false} SubsetSize(small: set<File>, large: set<File>)
    requires small <= large
    ensures |small| <= |large|
  {
    if small != {} {
      var x :| x in small;
      SubsetSize(small - {x}, large - {x});
    }
  }

  /** [lo, hi] was reached from [begin, end] by adding ranges of files: every
      closed range around [begin, end] contains it, and its keys are explained. */
  ghost predicate Reached(files: Level, begin: Option<Key>, end: Option<Key>, lo: Option<Key>, hi: Option<Key>)
  {
    && lo.Some? == begin.Some? && hi.Some? == end.Some? && Contains(lo, hi, begin, end)
    && (forall lo2, hi2 ::
      Contains(lo2, hi2, begin, end) && ClosedRange(files, lo2, hi2) ==> Contains(lo2, hi2, lo, hi))
    && (forall k :: InRange(k, lo, hi) ==> Explained(files, k, begin, end, lo, hi))
  }

  /** Store in `inputs` the files of a level that overlap [begin, end].  At
      level 0 a file that sticks out of the range widens it and restarts the
      scan, so the range reached is the least closed one around [begin, end]. */
  method GetOverlappingInputs(level: nat, files: Level, begin: Option<Key>, end: Option<Key>)
    returns (inputs: Level, ghost lo: Option<Key>, ghost hi: Option<Key>)
    ensures inputs == Meeting(files, lo, hi)
    ensures level > 0 ==> lo == begin && hi == end
    ensures level == 0 ==> ClosedRange(files, lo, hi)
    ensures Reached(files, begin, end, lo, hi)
  {
    inputs := [];
    var userBegin, userEnd := begin, end;
    var i := 0;
    NothingScanned(level, files, begin, end);
    hide Scanned;
    hide Reached;
    hide Below;
    hide Above;
    while i < |files|
      invariant 0 <= i <= |files|
      invariant Scanned(level, files, i, userBegin, userEnd, inputs)
      invariant level > 0 ==> userBegin == begin && userEnd == end
      invariant Reached(files, begin, end, userBegin, userEnd)
      decreases |Below(files, userBegin)| + |Above(files, userEnd)|, |files| - i
    {
      var f := files[i];
      ScanOne(level, files, i, userBegin, userEnd, inputs);
      i := i + 1;
      if userBegin.Some? && f.largest.user < userBegin.value {
        // f is completely before the range
      } else if userEnd.Some? && f.smallest.user > userEnd.value {
        // f is completely after the range
      } else {
        inputs := inputs + [f];
        if level == 0 {
          if userBegin.Some? && f.smallest.user < userBegin.value {
            WidenBelow(files, f, begin, end, userBegin, userEnd);
            userBegin := Some(f.smallest.user);
            inputs := [];
            i := 0;
          } else if userEnd.Some? && f.largest.user > userEnd.value {
            WidenAbove(files, f, begin, end, userBegin, userEnd);
            userEnd := Some(f.largest.user);
            inputs := [];
            i := 0;
          }
        }
      }
    }
    AllScanned(level, files, userBegin, userEnd, inputs);
    lo, hi := userBegin, userEnd;
  }

  lemma NothingScanned(level: nat, files: Level, begin: Option<Key>, end: Option<Key>)
    ensures Reached(files, begin, end, begin, end)
    ensures forall lo, hi :: Scanned(level, files, 0, lo, hi, [])
  {
  }

  lemma AllScanned(level: nat, files: Level, lo: Option<Key>, hi: Option<Key>, inputs: Level)
    requires Scanned(level, files, |files|, lo, hi, inputs)
    ensures inputs == Meeting(files, lo, hi) && (level == 0 ==> ClosedRange(files, lo, hi))
  {
    assert files[..|files|] == files;
  }

  lemma WidenBelow(files: Level, f: File, begin: Option<Key>, end: Option<Key>, lo: Option<Key>, hi: Option<Key>)
    requires f in files && Meets(f, lo, hi) && lo.Some? && f.smallest.user < lo.value
    requires Reached(files, begin, end, lo, hi)
    ensures |Below(files, Some(f.smallest.user))| < |Below(files, lo)|
    ensures Reached(files, begin, end, Some(f.smallest.user), hi)
  {
    var lo1 := Some(f.smallest.user);
    FewerOutside(Below(files, lo1), Below(files, lo), f);
    forall k | InRange(k, lo1, hi)
      ensures Explained(files, k, begin, end, lo1, hi)
    {
      if k < lo.value {
        assert Meets(f, lo1, hi) && Covers(f, k);
      } else if !InRange(k, begin, end) {
        assert Explained(files, k, begin, end, lo, hi);
        var g :| g in files && Meets(g, lo, hi) && Covers(g, k);
        assert Meets(g, lo1, hi);
      }
    }
    forall lo2, hi2 | Contains(lo2, hi2, begin, end) && ClosedRange(files, lo2, hi2)
      ensures Contains(lo2, hi2, lo1, hi)
    {
      assert Meets(f, lo2, hi2);
    }
  }

  lemma WidenAbove(files: Level, f: File, begin: Option<Key>, end: Option<Key>, lo: Option<Key>, hi: Option<Key>)
    requires f in files && Meets(f, lo, hi) && hi.Some? && f.largest.user > hi.value
    requires Reached(files, begin, end, lo, hi)
    ensures |Above(files, Some(f.largest.user))| < |Above(files, hi)|
    ensures Reached(files, begin, end, lo, Some(f.largest.user))
  {
    var hi1 := Some(f.largest.user);
    FewerOutside(Above(files, hi1), Above(files, hi), f);
    forall k | InRange(k, lo, hi1)
      ensures Explained(files, k, begin, end, lo, hi1)
    {
      if k > hi.value {
        assert Meets(f, lo, hi1) && Covers(f, k);
      } else if !InRange(k, begin, end) {
        assert Explained(files, k, begin, end, lo, hi);
        var g :| g in files && Meets(g, lo, hi) && Covers(g, k);
        assert Meets(g, lo, hi1);
      }
    }
    forall lo2, hi2 | Contains(lo2, hi2, begin, end) && ClosedRange(files, lo2, hi2)
      ensures Contains(lo2, hi2, lo, hi1)
    {
      assert Meets(f, lo2, hi2);
    }
  }

  function TotalFileSize(files: Level): nat
  {
    if files == [] then 0 else files[0].size + TotalFileSize(files[1..])
  }

  /** The tightest key range around some files. */
  ghost predicate IsHull(files: Level, lo: Key, hi: Key)
  {
    && (forall f :: f in files ==> lo <= f.smallest.user && f.largest.user <= hi)
    && (exists f :: f in files && f.smallest.user == lo)
    && (exists f :: f in files && f.largest.user == hi)
  }

  /** The last key of some files. */
  ghost predicate IsEnd(files: Level, k: IKey)
  {
    (exists f :: f in files && f.largest == k) && forall f :: f in files ==> !Before(k, f.largest)
  }

  method GetRange(inputs: Level) returns (smallest: IKey, largest: IKey)
    requires inputs != []
    ensures IsHull(inputs, smallest.user, largest.user)
    ensures exists f :: f in inputs && f.smallest == smallest
    ensures forall f :: f in inputs ==> !Before(f.smallest, smallest)
    ensures IsEnd(inputs, largest)
  {
    smallest, largest := inputs[0].smallest, inputs[0].largest;
    var i := 1;
    while i < |inputs|
      invariant 1 <= i <= |inputs|
      invariant exists f :: f in inputs && f.smallest == smallest
      invariant exists f :: f in inputs && f.largest == largest
      invariant forall j :: 0 <= j < i ==> !Before(inputs[j].smallest, smallest) && !Before(largest, inputs[j].largest)
    {
      var f := inputs[i];
      if Before(f.smallest, smallest) {
        smallest := f.smallest;
      }
      if Before(largest, f.largest) {
        largest := f.largest;
      }
      i := i + 1;
    }
  }

  /** The sizes of the files added up. */
  lemma {:induction false} TotalsAdd(a: Level, b: Level)
    ensures TotalFileSize(a + b) == TotalFileSize(a) + TotalFileSize(b)
    ensures forall f: File :: TotalFileSize([f]) == f.size
  {
    forall f: File
      ensures TotalFileSize([f]) == f.size
    {
      assert [f][1..] == [] && TotalFileSize([]) == 0;
    }
    if a == [] {
      assert a + b == b;
    } else {
      TotalsAdd(a[1..], b);
      assert (a + b)[1..] == a[1..] + b;
    }
  }

  /** A new file with keys [lo, hi] may not be pushed from `level` to the next: it
      meets level 0 or the next level, or too many bytes of the level after that. */
  ghost predicate MayNotPush(v: Version, lo: Key, hi: Key, maxGrandparentBytes: nat, level: nat)
    requires |v| == NUM_LEVELS && level < MAX_MEM_COMPACT_LEVEL
  {
    || SomeMeets(v[0], Some(lo), Some(hi))
    || SomeMeets(v[level + 1], Some(lo), Some(hi))
    || TotalFileSize(Meeting(v[level + 2], Some(lo), Some(hi))) > maxGrandparentBytes
  }

  /** The level for a new file with keys [lo, hi]: the first it may not be pushed from. */
  ghost predicate IsOutputLevel(v: Version, lo: Key, hi: Key, maxGrandparentBytes: nat, level: nat)
    requires |v| == NUM_LEVELS
  {
    && level <= MAX_MEM_COMPACT_LEVEL
    && (forall l: nat :: l < level ==> !MayNotPush(v, lo, hi, maxGrandparentBytes, l))
    && (level < MAX_MEM_COMPACT_LEVEL ==> MayNotPush(v, lo, hi, maxGrandparentBytes, level))
  }

  lemma OutputLevelMisses(v: Version, lo: Key, hi: Key, maxGrandparentBytes: nat, level: nat)
    requires |v| == NUM_LEVELS && IsOutputLevel(v, lo, hi, maxGrandparentBytes, level)
    ensures level > 0 ==> forall l :: 0 <= l <= level ==> !SomeMeets(v[l], Some(lo), Some(hi))
  {
    hide SomeMeets;
    forall l | 0 <= l <= level && level > 0
      ensures !SomeMeets(v[l], Some(lo), Some(hi))
    {
      assert !MayNotPush(v, lo, hi, maxGrandparentBytes, if l == 0 then 0 else l - 1);
    }
  }

  /** The level for a flushed memtable with key range [lo, hi]. */
  method PickLevelForMemTableOutput(v: Version, lo: Key, hi: Key, maxGrandparentBytes: nat) returns (level: nat)
    requires LevelsOk(v)
    ensures IsOutputLevel(v, lo, hi, maxGrandparentBytes, level)
  {
    hide SomeMeets;
    hide Meeting;
    hide TotalFileSize;
    hide Reached;
    level := 0;
    var overlap := SomeFileOverlapsRange(false, v[0], Some(lo), Some(hi));
    if !overlap {
      while level < MAX_MEM_COMPACT_LEVEL
        invariant level <= MAX_MEM_COMPACT_LEVEL
        invariant forall l: nat :: l < level ==> !MayNotPush(v, lo, hi, maxGrandparentBytes, l)
      {
        overlap := SomeFileOverlapsRange(true, v[level + 1], Some(lo), Some(hi));
        if overlap {
          break;
        }
        var overlaps, _, _ := GetOverlappingInputs(level + 2, v[level + 2], Some(lo), Some(hi));
        if TotalFileSize(overlaps) > maxGrandparentBytes {
          break;
        }
        level := level + 1;
      }
    }
  }
}
