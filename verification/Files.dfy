/** Table files, levels and versions (db/version_edit.h, db/version_set.h).

    A table file carries its metadata and its contents, a list of entries.
    The levels of a version are lists of files in the order the version keeps
    them: by smallest key, ties by file number. */
module Files {
  import opened Wrappers
  import opened Keys

  const NUM_LEVELS := 7
  const MAX_MEM_COMPACT_LEVEL := 2

  datatype File = File(number: nat, size: nat, smallest: IKey, largest: IKey, entries: seq<Entry>)

  type Level = seq<File>
  type Version = seq<Level>

  ghost predicate FileOk(f: File)
  {
    && f.entries != []
    && StrictlySorted(f.entries)
    && f.smallest == KeyOf(f.entries[0])
    && f.largest == KeyOf(f.entries[|f.entries| - 1])
    && forall e :: e in f.entries ==> e.seqno <= MAX_SEQUENCE
  }

  /** User key `k` lies in the key range of `f`. */
  predicate Covers(f: File, k: Key)
  {
    f.smallest.user <= k <= f.largest.user
  }

  /** The key range of `f` meets [lo, hi]; an absent bound is unbounded. */
  predicate Meets(f: File, lo: Option<Key>, hi: Option<Key>)
  {
    !(lo.Some? && f.largest.user < lo.value) && !(hi.Some? && f.smallest.user > hi.value)
  }

  predicate MeetsRange(f: File, lo: Key, hi: Key)
  {
    Meets(f, Some(lo), Some(hi))
  }

  lemma EntryInRange(f: File, e: Entry)
    requires FileOk(f) && e in f.entries
    ensures Covers(f, e.user)
  {
    var i :| 0 <= i < |f.entries| && f.entries[i] == e;
    assert i == 0 || EntryBefore(f.entries[0], e);
    assert i == |f.entries| - 1 || EntryBefore(e, f.entries[|f.entries| - 1]);
  }

  /** Where two files share a user key, `f` holds the newer entries. */
  ghost predicate NewerFile(f: File, g: File)
  {
    forall x, y :: x in f.entries && y in g.entries && x.user == y.user ==> x.seqno > y.seqno
  }

  lemma DisjointFilesAreNewer(f: File, g: File)
    requires FileOk(f) && FileOk(g)
    requires f.largest.user < g.smallest.user || g.largest.user < f.smallest.user
    ensures NewerFile(f, g)
  {
    forall x, y | x in f.entries && y in g.entries
      ensures x.user != y.user
    {
      EntryInRange(f, x);
      EntryInRange(g, y);
    }
  }

  /** VersionSet::Builder::BySmallestKey. */
  predicate BySmallestKey(f: File, g: File)
  {
    Before(f.smallest, g.smallest) || (f.smallest == g.smallest && f.number < g.number)
  }

  ghost predicate SortedBySmallest(files: Level)
  {
    forall i, j :: 0 <= i < j < |files| ==> BySmallestKey(files[i], files[j])
  }

  ghost predicate Distinct(files: Level)
  {
    forall i, j :: 0 <= i < j < |files| ==> files[i] != files[j]
  }

  ghost predicate DisjointSorted(files: Level)
  {
    forall i, j :: 0 <= i < j < |files| ==> files[i].largest.user < files[j].smallest.user
  }

  ghost predicate FilesOk(files: Level)
  {
    forall f :: f in files ==> FileOk(f)
  }

  /** Level 0 may overlap, but a larger file number means newer data. */
  ghost predicate NewestByNumber(files: Level)
  {
    forall f, g :: f in files && g in files && f != g ==>
      f.number != g.number && (f.number > g.number ==> NewerFile(f, g))
  }

  ghost predicate LayeredLevels(v: Version)
  {
    forall l, m, f, g :: 0 <= l < m < |v| && f in v[l] && g in v[m] ==> NewerFile(f, g)
  }

  /** Every write has its own sequence number. */
  ghost predicate UniqueSequences(v: Version)
  {
    forall x, y :: InVersion(v, x) && InVersion(v, y) && x.user == y.user && x.seqno == y.seqno ==> x == y
  }

  /** Seven levels; below level 0 the files of a level are apart and in order. */
  ghost predicate LevelsOk(v: Version)
  {
    && |v| == NUM_LEVELS
    && (forall l :: 0 <= l < |v| ==> FilesOk(v[l]))
    && (forall l :: 0 < l < |v| ==> DisjointSorted(v[l]))
  }

  ghost predicate VersionOk(v: Version)
  {
    && LevelsOk(v)
    && (forall l :: 0 <= l < |v| ==> SortedBySmallest(v[l]))
    && NewestByNumber(v[0])
    && LayeredLevels(v)
    && UniqueSequences(v)
  }

  ghost predicate InVersion(v: Version, e: Entry)
  {
    exists l, f :: 0 <= l < |v| && f in v[l] && e in f.entries
  }

  /** `e` is what a read of its user key at `snapshot` must be decided by. */
  ghost predicate NewestVisible(v: Version, snapshot: nat, e: Entry)
  {
    && InVersion(v, e) && e.seqno <= snapshot
    && forall x :: InVersion(v, x) && x.user == e.user && x.seqno <= snapshot ==> x.seqno <= e.seqno
  }

  /** Seek for a key at a snapshot, then compare the user key. */
  function SeekUser(entries: seq<Entry>, k: Key, snapshot: nat): (r: Option<Entry>)
  {
    var i := FirstAtOrAfter(entries, LookupKey(k, snapshot));
    if i < |entries| && entries[i].user == k then Some(entries[i]) else None
  }

  /** One seek finds the newest visible entry of the key, or shows there is none. */
  lemma SeekUserFindsNewest(entries: seq<Entry>, k: Key, snapshot: nat)
    requires StrictlySorted(entries)
    ensures match SeekUser(entries, k, snapshot)
      case None => forall x :: x in entries && x.user == k ==> x.seqno > snapshot
      case Some(e) =>
        && e in entries && e.user == k && e.seqno <= snapshot
        && forall x :: x in entries && x.user == k && x.seqno <= snapshot ==> x.seqno <= e.seqno
  {
    var i := FirstAtOrAfter(entries, LookupKey(k, snapshot));
    forall j | 0 <= j < |entries| && entries[j].user == k
      ensures j < i <==> entries[j].seqno > snapshot
      ensures i < j ==> entries[i].user == k && entries[j].seqno <= entries[i].seqno
    {
      if i < j {
        assert EntryBefore(entries[i], entries[j]);
      }
    }
  }

  /** TableCache::Get followed by SaveValue. */
  function TableGet(f: File, k: Key, snapshot: nat): Option<Entry>
  {
    SeekUser(f.entries, k, snapshot)
  }

  /** The file that BuildTable writes for a sorted list of entries. */
  function TableFile(entries: seq<Entry>, number: nat, size: nat): File
    requires entries != []
  {
    File(number, size, KeyOf(entries[0]), KeyOf(entries[|entries| - 1]), entries)
  }
}
