/** What background work does to a version: a flushed file is added, inputs of
    a compaction are replaced, a file is moved one level down.  Each keeps the
    level invariants and every read (db/db_impl.cc, CompactMemTable,
    InstallCompactionResults, the trivial move of BackgroundCompaction). */
module VersionSteps {
  import opened Keys
  import opened Files
  import opened Picking
  import Overlap
  import Drop

  /** Write number i of the store's history carries sequence number i + 1. */
  ghost predicate Numbered(w: seq<Entry>)
  {
    forall i :: 0 <= i < |w| ==> w[i].seqno == i + 1
  }

  ghost predicate IsWrite(w: seq<Entry>, n: nat, e: Entry)
  {
    1 <= e.seqno <= n <= |w| && w[e.seqno - 1] == e
  }

  /** Of the first `n` writes, `e` is the last one to its key, and stores a value. */
  ghost predicate LastPut(w: seq<Entry>, n: nat, e: Entry)
  {
    IsWrite(w, n, e) && e.op.Put? && forall i :: e.seqno <= i < n ==> w[i].user != e.user
  }

  ghost predicate LiveIn(v: Version, e: Entry)
  {
    InVersion(v, e) && e.op.Put? && forall x :: InVersion(v, x) && x.user == e.user ==> x.seqno <= e.seqno
  }

  /** The version holds only writes among the first `n`, and serves exactly the
      values those writes leave behind. */
  ghost predicate Represents(v: Version, w: seq<Entry>, n: nat)
  {
    && (forall x :: InVersion(v, x) ==> IsWrite(w, n, x))
    && (forall e :: LiveIn(v, e) <==> LastPut(w, n, e))
  }

  lemma RepresentsDistinct(v: Version, w: seq<Entry>, n: nat)
    requires Represents(v, w, n)
    ensures UniqueSequences(v)
  {
  }

  // ----- a flush -----

  ghost predicate FileAdded(v: Version, level: nat, f: File, next: Version)
  {
    && |v| == |next| == NUM_LEVELS && level < NUM_LEVELS
    && (forall l :: 0 <= l < NUM_LEVELS ==> SortedBySmallest(next[l]))
    && (forall l, g :: 0 <= l < NUM_LEVELS ==> (g in next[l] <==> g in v[l] || (l == level && g == f)))
  }

  /** The file holds exactly the writes numbered from + 1 to n. */
  ghost predicate HoldsWrites(f: File, w: seq<Entry>, from: nat, n: nat)
  {
    forall e :: e in f.entries <==> from < e.seqno && IsWrite(w, n, e)
  }

  lemma AddedEntries(v: Version, level: nat, f: File, next: Version, x: Entry)
    requires FileAdded(v, level, f, next)
    ensures InVersion(next, x) <==> InVersion(v, x) || x in f.entries
  {
    if InVersion(next, x) {
      var l, g :| 0 <= l < |next| && g in next[l] && x in g.entries;
      assert g in v[l] || g == f;
    }
    if InVersion(v, x) {
      var l, g :| 0 <= l < |v| && g in v[l] && x in g.entries;
      assert g in next[l];
    }
    if x in f.entries {
      assert f in next[level];
    }
  }

  lemma FlushKeepsReads(v: Version, level: nat, f: File, next: Version, w: seq<Entry>, from: nat, n: nat)
    requires FileAdded(v, level, f, next) && from <= n <= |w| && Numbered(w)
    requires Represents(v, w, from) && HoldsWrites(f, w, from, n)
    ensures Represents(next, w, n)
  {
    forall x
      ensures InVersion(next, x) <==> InVersion(v, x) || (from < x.seqno && IsWrite(w, n, x))
    {
      AddedEntries(v, level, f, next, x);
    }
    NewerWritesKeepReads(v, next, w, from, n);
  }

  /** Adding exactly the writes from + 1 to n brings the version up to n. */
  lemma NewerWritesKeepReads(v: Version, next: Version, w: seq<Entry>, from: nat, n: nat)
    requires from <= n <= |w| && Numbered(w) && Represents(v, w, from)
    requires forall x :: InVersion(next, x) <==> InVersion(v, x) || (from < x.seqno && IsWrite(w, n, x))
    ensures Represents(next, w, n)
  {
    forall e
      ensures LiveIn(next, e) ==> LastPut(w, n, e)
    {
      if LiveIn(next, e) {
        assert InVersion(v, e) ==> LiveIn(v, e);
        forall i | e.seqno <= i < n
          ensures w[i].user != e.user
        {
          assert i >= from ==> IsWrite(w, n, w[i]) && InVersion(next, w[i]);
        }
      }
    }
    forall e
      ensures LastPut(w, n, e) ==> LiveIn(next, e)
    {
      if LastPut(w, n, e) {
        assert e.seqno <= from ==> LastPut(w, from, e);
        assert forall x :: InVersion(next, x) ==> IsWrite(w, n, x);
      }
    }
  }

  /** Where PickLevelForMemTableOutput may put a file: below level 0 only when
      no file of the levels down to it meets its range. */
  ghost predicate Placeable(v: Version, level: nat, f: File)
  {
    level > 0 ==> forall l, g :: 0 <= l <= level < |v| && g in v[l] ==> !MeetsRange(g, f.smallest.user, f.largest.user)
  }

  ghost predicate AllOlder(v: Version, f: File)
  {
    forall l, g :: 0 <= l < |v| && g in v[l] ==> NewerFile(f, g)
  }

  lemma FlushKeepsLevels(v: Version, level: nat, f: File, next: Version)
    requires VersionOk(v) && FileAdded(v, level, f, next) && FileOk(f) && UniqueSequences(next)
    requires AllOlder(v, f) && Placeable(v, level, f)
    requires level == 0 ==> forall g :: g in v[0] ==> g.number < f.number
    ensures VersionOk(next)
  {
    FlushLayered(v, level, f, next);
    forall l | 0 < l < NUM_LEVELS
      ensures DisjointSorted(next[l])
    {
      if l == level {
        FlushDisjoint(v[l], f, next[l]);
      } else {
        SameLevelDisjoint(v[l], next[l]);
      }
    }
    FlushByNumber(v[0], level, f, next[0]);
  }

  lemma FlushByNumber(files: Level, level: nat, f: File, next: Level)
    requires NewestByNumber(files) && forall g :: g in files ==> NewerFile(f, g)
    requires forall g :: g in next <==> g in files || (level == 0 && g == f)
    requires level == 0 ==> forall g :: g in files ==> g.number < f.number
    ensures NewestByNumber(next)
  {
  }

  lemma FlushLayered(v: Version, level: nat, f: File, next: Version)
    requires FileAdded(v, level, f, next) && FileOk(f) && LayeredLevels(v)
    requires forall l :: 0 <= l < NUM_LEVELS ==> FilesOk(v[l])
    requires AllOlder(v, f) && Placeable(v, level, f)
    ensures LayeredLevels(next)
  {
    forall l, m, g, h | 0 <= l < m < NUM_LEVELS && g in next[l] && h in next[m]
      ensures NewerFile(g, h)
    {
      if h in v[m] {
        assert g in v[l] || g == f;
      } else {
        assert h == f && m == level && g in v[l];
        assert FileOk(g) && !MeetsRange(g, f.smallest.user, f.largest.user);
        DisjointFilesAreNewer(g, f);
      }
    }
  }

  lemma FlushDisjoint(files: Level, f: File, next: Level)
    requires FilesOk(files) && FileOk(f) && DisjointSorted(files) && SortedBySmallest(next)
    requires forall g :: g in files ==> !MeetsRange(g, f.smallest.user, f.largest.user)
    requires forall g :: g in next <==> g in files || g == f
    ensures DisjointSorted(next)
  {
    forall g, h | g in next && h in next && g != h
      ensures g.largest.user < h.smallest.user || h.largest.user < g.smallest.user
    {
      if g in files && h in files {
        PairDisjoint(files, g, h);
      } else {
        var other := if g in files then g else h;
        assert !MeetsRange(other, f.smallest.user, f.largest.user);
      }
    }
    DisjointFromPairs(next);
  }

  lemma SameLevelDisjoint(files: Level, next: Level)
    requires FilesOk(files) && DisjointSorted(files) && SortedBySmallest(next)
    requires forall g :: g in next ==> g in files
    ensures DisjointSorted(next)
  {
    forall g, h | g in next && h in next && g != h
      ensures g.largest.user < h.smallest.user || h.largest.user < g.smallest.user
    {
      PairDisjoint(files, g, h);
    }
    DisjointFromPairs(next);
  }

  lemma PairDisjoint(files: Level, g: File, h: File)
    requires DisjointSorted(files) && g in files && h in files && g != h
    ensures g.largest.user < h.smallest.user || h.largest.user < g.smallest.user
  {
    var i :| 0 <= i < |files| && files[i] == g;
    var j :| 0 <= j < |files| && files[j] == h;
    assert i < j || j < i;
  }

  /** Files in key order whose ranges are pairwise apart are disjoint in order. */
  lemma DisjointFromPairs(files: Level)
    requires SortedBySmallest(files) && FilesOk(files)
    requires forall g, h :: g in files && h in files && g != h ==>
      g.largest.user < h.smallest.user || h.largest.user < g.smallest.user
    ensures DisjointSorted(files)
  {
    forall i, j | 0 <= i < j < |files|
      ensures files[i].largest.user < files[j].smallest.user
    {
      assert BySmallestKey(files[i], files[j]);
      assert files[i] in files && files[j] in files;
      NonemptyRange(files, files[j]);
    }
  }

  // ----- a compaction -----

  /** What a running compaction relies on while flushes land around it. */
  ghost predicate Replaceable(v: Version, c: Compaction, lo: Key, hi: Key)
  {
    && |v| == NUM_LEVELS && c.level < NUM_LEVELS - 1 && c.inputs0 != []
    && (forall f :: f in c.inputs0 ==> f in v[c.level])
    && (forall f :: f in c.inputs1 ==> f in v[c.level + 1])
    && lo <= hi && Overlap.IsHull(c.Inputs(), lo, hi) && CoveredRange(c.Inputs(), lo, hi)
    && OutsidersNewer(v[c.level], c.inputs0)
    && MissedByOthers(v[c.level + 1], c.inputs1, lo, hi)
  }

  ghost predicate OutsidersNewer(files: Level, inputs: Level)
  {
    forall f, x :: f in files && f !in inputs && x in inputs ==> NewerFile(f, x)
  }

  lemma PickedIsReplaceable(v: Version, c: Compaction, lo: Key, hi: Key)
    requires VersionOk(v) && c.level < NUM_LEVELS - 1
    requires PickedOk(v[c.level], v[c.level + 1], c, lo, hi)
    ensures Replaceable(v, c, lo, hi)
  {
    forall f, x | f in v[c.level] && f !in c.inputs0 && x in c.inputs0
      ensures NewerFile(f, x)
    {
      assert FileOk(f) && FileOk(x);
      DisjointFilesAreNewer(f, x);
    }
  }

  /** A flush during a compaction leaves everything the compaction relies on in
      place: it cannot land inside the range of the outputs. */
  lemma FlushKeepsReplaceable(v: Version, c: Compaction, lo: Key, hi: Key, level: nat, f: File, next: Version)
    requires Replaceable(v, c, lo, hi) && FileAdded(v, level, f, next) && FileOk(f)
    requires AllOlder(v, f) && Placeable(v, level, f)
    ensures Replaceable(next, c, lo, hi)
    ensures level > c.level ==> !MeetsRange(f, lo, hi)
  {
    EntryInRange(f, f.entries[0]);
    if level > c.level {
      forall x | x in c.Inputs()
        ensures !MeetsRange(x, f.smallest.user, f.largest.user)
      {
        assert x in v[c.level] || x in v[c.level + 1];
      }
      MeetsHullMeetsInput(c.Inputs(), lo, hi, f);
    }
    forall g, x | g in next[c.level] && g !in c.inputs0 && x in c.inputs0
      ensures NewerFile(g, x)
    {
    }
    forall g | g in next[c.level + 1] && g !in c.inputs1
      ensures !MeetsRange(g, lo, hi)
    {
    }
  }

  ghost predicate FilesReplaced(v: Version, c: Compaction, outputs: Level, next: Version)
  {
    && |v| == |next| == NUM_LEVELS && c.level < NUM_LEVELS - 1
    && (forall l :: 0 <= l < NUM_LEVELS ==> SortedBySmallest(next[l]))
    && (forall l, g :: 0 <= l < NUM_LEVELS ==> (g in next[l] <==> Stays(v, c, outputs, l, g)))
  }

  ghost predicate Stays(v: Version, c: Compaction, outputs: Level, l: nat, g: File)
    requires l < |v|
  {
    (g in v[l] && !Consumed(c, l, g)) || (l == c.level + 1 && g in outputs)
  }

  ghost predicate Consumed(c: Compaction, l: nat, g: File)
  {
    (l == c.level && g in c.inputs0) || (l == c.level + 1 && g in c.inputs1)
  }

  ghost predicate InputEntry(c: Compaction, e: Entry)
  {
    exists x :: x in c.Inputs() && e in x.entries
  }

  /** Output files hold input entries only and do not overlap each other. */
  ghost predicate OutputsOk(c: Compaction, outputs: Level)
  {
    && FilesOk(outputs)
    && (forall g, y :: g in outputs && y in g.entries ==> InputEntry(c, y))
    && (forall g, h :: g in outputs && h in outputs && g != h ==>
      g.largest.user < h.smallest.user || h.largest.user < g.smallest.user)
  }

  lemma OutputInHull(c: Compaction, lo: Key, hi: Key, g: File)
    requires FilesOk(c.Inputs()) && Overlap.IsHull(c.Inputs(), lo, hi)
    requires FileOk(g) && forall y :: y in g.entries ==> InputEntry(c, y)
    ensures lo <= g.smallest.user <= g.largest.user <= hi
  {
    EntryInRange(g, g.entries[0]);
    InputInHull(c, lo, hi, g.entries[0]);
    InputInHull(c, lo, hi, g.entries[|g.entries| - 1]);
  }

  lemma InputInHull(c: Compaction, lo: Key, hi: Key, e: Entry)
    requires FilesOk(c.Inputs()) && Overlap.IsHull(c.Inputs(), lo, hi) && InputEntry(c, e)
    ensures lo <= e.user <= hi
  {
    var x :| x in c.Inputs() && e in x.entries;
    EntryInRange(x, e);
  }

  lemma ReplaceKeepsLevels(v: Version, c: Compaction, lo: Key, hi: Key, outputs: Level, next: Version)
    requires VersionOk(v) && Replaceable(v, c, lo, hi) && OutputsOk(c, outputs) && FilesReplaced(v, c, outputs, next)
    ensures VersionOk(next)
  {
    ReplaceLayered(v, c, outputs, next);
    ReplacedFilesOk(v, c, outputs, next);
    ReplacedLevelsDisjoint(v, c, lo, hi, outputs, next);
    ReplaceUnique(v, c, outputs, next);
    LevelMembers(v, c, outputs, next, 0);
    SubsetByNumber(v[0], next[0]);
  }

  lemma SubsetByNumber(files: Level, next: Level)
    requires NewestByNumber(files) && forall g :: g in next ==> g in files
    ensures NewestByNumber(next)
  {
  }

  lemma ReplacedLevelsDisjoint(v: Version, c: Compaction, lo: Key, hi: Key, outputs: Level, next: Version)
    requires FilesReplaced(v, c, outputs, next) && OutputsOk(c, outputs) && LevelsOk(v)
    requires FilesOk(c.Inputs()) && Overlap.IsHull(c.Inputs(), lo, hi)
    requires MissedByOthers(v[c.level + 1], c.inputs1, lo, hi)
    ensures forall l :: 0 < l < NUM_LEVELS ==> DisjointSorted(next[l])
  {
    forall l | 0 < l < NUM_LEVELS
      ensures DisjointSorted(next[l])
    {
      LevelMembers(v, c, outputs, next, l);
      if l == c.level + 1 {
        ReplaceDisjoint(v[l], c, lo, hi, outputs, next[l]);
      } else {
        SameLevelDisjoint(v[l], next[l]);
      }
    }
  }

  lemma LevelMembers(v: Version, c: Compaction, outputs: Level, next: Version, l: nat)
    requires FilesReplaced(v, c, outputs, next) && l < NUM_LEVELS
    ensures SortedBySmallest(next[l])
    ensures l == c.level + 1 ==> forall g :: g in next[l] <==> (g in v[l] && g !in c.inputs1) || g in outputs
    ensures l != c.level + 1 ==> forall g :: g in next[l] ==> g in v[l]
  {
    forall g
      ensures g in next[l] <==> Stays(v, c, outputs, l, g)
    {
    }
  }

  lemma ReplacedFilesOk(v: Version, c: Compaction, outputs: Level, next: Version)
    requires FilesReplaced(v, c, outputs, next) && FilesOk(outputs)
    requires forall l :: 0 <= l < NUM_LEVELS ==> FilesOk(v[l])
    requires forall f :: f in c.inputs0 ==> f in v[c.level]
    requires forall f :: f in c.inputs1 ==> f in v[c.level + 1]
    ensures forall l :: 0 <= l < NUM_LEVELS ==> FilesOk(next[l])
    ensures FilesOk(c.Inputs())
  {
  }

  lemma ReplaceApart(files: Level, c: Compaction, lo: Key, hi: Key, outputs: Level, g: File, h: File)
    requires FilesOk(files) && FilesOk(c.Inputs()) && DisjointSorted(files)
    requires MissedByOthers(files, c.inputs1, lo, hi) && Overlap.IsHull(c.Inputs(), lo, hi) && OutputsOk(c, outputs)
    requires (g in files && g !in c.inputs1) || g in outputs
    requires (h in files && h !in c.inputs1) || h in outputs
    requires g != h
    ensures g.largest.user < h.smallest.user || h.largest.user < g.smallest.user
  {
    if g in outputs {
      OutputInHull(c, lo, hi, g);
    }
    if h in outputs {
      OutputInHull(c, lo, hi, h);
    }
    if g !in outputs && h !in outputs {
      PairDisjoint(files, g, h);
    }
  }

  lemma ReplaceDisjoint(files: Level, c: Compaction, lo: Key, hi: Key, outputs: Level, next: Level)
    requires FilesOk(files) && FilesOk(c.Inputs()) && DisjointSorted(files) && SortedBySmallest(next)
    requires MissedByOthers(files, c.inputs1, lo, hi) && Overlap.IsHull(c.Inputs(), lo, hi) && OutputsOk(c, outputs)
    requires forall g :: g in next <==> (g in files && g !in c.inputs1) || g in outputs
    ensures DisjointSorted(next)
  {
    forall g, h | g in next && h in next && g != h
      ensures g.largest.user < h.smallest.user || h.largest.user < g.smallest.user
    {
      ReplaceApart(files, c, lo, hi, outputs, g, h);
    }
    DisjointFromPairs(next);
  }

  lemma ReplaceLayered(v: Version, c: Compaction, outputs: Level, next: Version)
    requires FilesReplaced(v, c, outputs, next) && LayeredLevels(v) && OutputsOk(c, outputs)
    requires forall f :: f in c.inputs0 ==> f in v[c.level]
    requires forall f :: f in c.inputs1 ==> f in v[c.level + 1]
    requires OutsidersNewer(v[c.level], c.inputs0)
    ensures LayeredLevels(next)
  {
    forall l, m, g, h | 0 <= l < m < NUM_LEVELS && g in next[l] && h in next[m]
      ensures NewerFile(g, h)
    {
      if h in v[m] && g in v[l] {
      } else if g in v[l] && !Consumed(c, l, g) {
        assert h in outputs && m == c.level + 1;
        forall x | x in c.Inputs()
          ensures NewerFile(g, x)
        {
          if x in c.inputs0 {
            assert x in v[c.level] && (l == c.level ==> g !in c.inputs0);
          } else {
            assert x in v[c.level + 1];
          }
        }
        NewerThanInputs(c, outputs, g, h);
      } else {
        assert g in outputs && l == c.level + 1 && h in v[m];
        forall x | x in c.Inputs()
          ensures NewerFile(x, h)
        {
          assert x in v[c.level] || x in v[c.level + 1];
        }
        OlderThanInputs(c, outputs, g, h);
      }
    }
  }

  lemma NewerThanInputs(c: Compaction, outputs: Level, g: File, h: File)
    requires OutputsOk(c, outputs) && h in outputs
    requires forall x :: x in c.Inputs() ==> NewerFile(g, x)
    ensures NewerFile(g, h)
  {
    forall a, y | a in g.entries && y in h.entries && a.user == y.user
      ensures a.seqno > y.seqno
    {
      assert InputEntry(c, y);
    }
  }

  lemma OlderThanInputs(c: Compaction, outputs: Level, g: File, h: File)
    requires OutputsOk(c, outputs) && g in outputs
    requires forall x :: x in c.Inputs() ==> NewerFile(x, h)
    ensures NewerFile(g, h)
  {
    forall y, b | y in g.entries && b in h.entries && y.user == b.user
      ensures y.seqno > b.seqno
    {
      assert InputEntry(c, y);
    }
  }

  /** An entry stored outside the inputs of the compaction. */
  ghost predicate OutsideEntry(v: Version, c: Compaction, e: Entry)
  {
    exists l, f :: 0 <= l < |v| && f in v[l] && !Consumed(c, l, f) && e in f.entries
  }

  ghost predicate OutputEntry(outputs: Level, e: Entry)
  {
    exists f :: f in outputs && e in f.entries
  }

  lemma ReplacedEntries(v: Version, c: Compaction, outputs: Level, next: Version, e: Entry)
    requires FilesReplaced(v, c, outputs, next)
    requires forall f :: f in c.inputs0 ==> f in v[c.level]
    requires forall f :: f in c.inputs1 ==> f in v[c.level + 1]
    ensures InVersion(v, e) <==> OutsideEntry(v, c, e) || InputEntry(c, e)
    ensures InVersion(next, e) <==> OutsideEntry(v, c, e) || OutputEntry(outputs, e)
  {
    if InVersion(v, e) {
      var l, f :| 0 <= l < |v| && f in v[l] && e in f.entries;
      assert Consumed(c, l, f) ==> f in c.Inputs();
    }
    if InputEntry(c, e) {
      var x :| x in c.Inputs() && e in x.entries;
      assert x in v[c.level] || x in v[c.level + 1];
    }
    if OutsideEntry(v, c, e) {
      var l, f :| 0 <= l < |v| && f in v[l] && !Consumed(c, l, f) && e in f.entries;
      assert f in next[l];
    }
    if OutputEntry(outputs, e) {
      var f :| f in outputs && e in f.entries;
      assert f in next[c.level + 1];
    }
    if InVersion(next, e) {
      var l, f :| 0 <= l < |next| && f in next[l] && e in f.entries;
      assert (f in v[l] && !Consumed(c, l, f)) || f in outputs;
    }
  }

  lemma ReplaceUnique(v: Version, c: Compaction, outputs: Level, next: Version)
    requires FilesReplaced(v, c, outputs, next) && UniqueSequences(v) && OutputsOk(c, outputs)
    requires forall f :: f in c.inputs0 ==> f in v[c.level]
    requires forall f :: f in c.inputs1 ==> f in v[c.level + 1]
    ensures UniqueSequences(next)
  {
    forall x | InVersion(next, x)
      ensures InVersion(v, x)
    {
      ReplacedEntries(v, c, outputs, next, x);
      if OutputEntry(outputs, x) {
        var f :| f in outputs && x in f.entries;
        assert InputEntry(c, x);
      }
    }
  }

  /** `merged` is what the merging iterator makes of the inputs. */
  ghost predicate MergedInput(c: Compaction, merged: seq<Entry>)
  {
    StrictlySorted(merged) && forall e :: e in merged <==> InputEntry(c, e)
  }

  /** Files below the outputs that the base-level test did not look at are out
      of the compaction's range. */
  ghost predicate DeeperKnown(v: Version, c: Compaction, deeper: seq<Level>, lo: Key, hi: Key)
  {
    && |v| == NUM_LEVELS && |deeper| == NUM_LEVELS - c.level - 2
    && forall l, f :: c.level + 2 <= l < NUM_LEVELS && f in v[l] ==>
      f in deeper[l - c.level - 2] || !MeetsRange(f, lo, hi)
  }

  lemma MarkersHideNothing(v: Version, c: Compaction, lo: Key, hi: Key, merged: seq<Entry>, snap: nat,
                           deeper: seq<Level>, others: iset<Entry>)
    requires |v| == NUM_LEVELS && LayeredLevels(v) && (forall l :: 0 <= l < NUM_LEVELS ==> FilesOk(v[l]))
    requires Replaceable(v, c, lo, hi) && DeeperKnown(v, c, deeper, lo, hi) && MergedInput(c, merged)
    requires forall e :: e in others <==> OutsideEntry(v, c, e)
    ensures Drop.NothingBelowMarkers(merged, others, snap, deeper)
  {
    forall t, o | t in merged && o in others && t.user == o.user && Drop.ObsoleteMarker(t, snap, deeper)
      ensures o.seqno > t.seqno
    {
      var x :| x in c.Inputs() && t in x.entries;
      var l, f :| 0 <= l < |v| && f in v[l] && !Consumed(c, l, f) && o in f.entries;
      EntryInRange(f, o);
      EntryInRange(x, t);
      OutsideIsNewer(v, c, lo, hi, snap, deeper, l, f, x, t);
    }
  }

  lemma OutsideIsNewer(v: Version, c: Compaction, lo: Key, hi: Key, snap: nat, deeper: seq<Level>,
                       l: nat, f: File, x: File, t: Entry)
    requires |v| == NUM_LEVELS && LayeredLevels(v)
    requires Replaceable(v, c, lo, hi) && DeeperKnown(v, c, deeper, lo, hi)
    requires l < NUM_LEVELS && f in v[l] && !Consumed(c, l, f) && x in c.Inputs() && Covers(x, t.user)
    requires Covers(f, t.user)
    requires Drop.ObsoleteMarker(t, snap, deeper)
    ensures NewerFile(f, x)
  {
    assert lo <= t.user <= hi;
    if l <= c.level {
      if x in c.inputs0 {
        assert x in v[c.level];
      } else {
        assert x in v[c.level + 1];
      }
    } else {
      assert MeetsRange(f, lo, hi);
    }
  }

  /** Dropping what a compaction drops leaves the version serving the same values. */
  lemma ReplaceKeepsReads(v: Version, c: Compaction, lo: Key, hi: Key, merged: seq<Entry>, snap: nat,
                          deeper: seq<Level>, outputs: Level, next: Version, w: seq<Entry>, n: nat)
    requires VersionOk(v) && Replaceable(v, c, lo, hi) && DeeperKnown(v, c, deeper, lo, hi) && MergedInput(c, merged)
    requires FilesReplaced(v, c, outputs, next)
    requires forall e :: OutputEntry(outputs, e) <==> e in Drop.Survivors(merged, |merged|, snap, deeper)
    requires Represents(v, w, n)
    ensures Represents(next, w, n)
  {
    var others := iset e | OutsideEntry(v, c, e);
    var kept := Drop.Survivors(merged, |merged|, snap, deeper);
    MarkersHideNothing(v, c, lo, hi, merged, snap, deeper, others);
    forall e
      ensures InVersion(v, e) <==> e in others + Drop.Members(merged)
      ensures InVersion(next, e) <==> e in others + Drop.Members(kept)
    {
      ReplacedEntries(v, c, outputs, next, e);
    }
    ReadsAgree(v, next, merged, kept, others, snap, deeper, n);
    forall x | InVersion(next, x)
      ensures IsWrite(w, n, x)
    {
      Drop.SurvivorIff(merged, |merged|, snap, deeper, x);
    }
  }

  lemma ReadsAgree(v: Version, next: Version, merged: seq<Entry>, kept: seq<Entry>, others: iset<Entry>, snap: nat,
                   deeper: seq<Level>, n: nat)
    requires forall e :: InVersion(v, e) <==> e in others + Drop.Members(merged)
    requires forall e :: InVersion(next, e) <==> e in others + Drop.Members(kept)
    requires kept == Drop.Survivors(merged, |merged|, snap, deeper) && StrictlySorted(merged)
    requires UniqueSequences(v) && Drop.NothingBelowMarkers(merged, others, snap, deeper)
    requires forall e :: InVersion(v, e) ==> e.seqno <= n
    ensures forall e :: LiveIn(next, e) <==> LiveIn(v, e)
  {
    var s := if n > snap then n else snap;
    forall e
      ensures LiveIn(next, e) <==> LiveIn(v, e)
    {
      Drop.DropPreservesReads(merged, others, snap, deeper, s, e);
      forall x
        ensures x in kept ==> x in merged
      {
        Drop.SurvivorIff(merged, |merged|, snap, deeper, x);
      }
      assert LiveIn(v, e) <==> Drop.Live(others + Drop.Members(merged), s, e);
      assert LiveIn(next, e) <==> Drop.Live(others + Drop.Members(kept), s, e);
    }
  }

  /** A trivial move changes no entry at all. */
  lemma MoveKeepsReads(v: Version, c: Compaction, f: File, next: Version, w: seq<Entry>, n: nat)
    requires FilesReplaced(v, c, [f], next) && c.inputs0 == [f] && c.inputs1 == [] && f in v[c.level]
    requires Represents(v, w, n)
    ensures Represents(next, w, n)
  {
    forall e
      ensures InVersion(next, e) <==> InVersion(v, e)
    {
      ReplacedEntries(v, c, [f], next, e);
      assert InputEntry(c, e) <==> e in f.entries by {
        assert c.Inputs() == [f];
      }
      assert OutputEntry([f], e) <==> e in f.entries by {
        assert f in [f];
      }
    }
    assert forall e :: LiveIn(next, e) <==> LiveIn(v, e);
  }
}
