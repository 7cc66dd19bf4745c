/** Reading one key from a version (db/version_set.cc, Version::Get). */
module VersionGet {
  import opened Wrappers
  import opened Keys
  import opened Files

  datatype GetResult = NotFound | Found(value: Value)

  /** The smallest index whose file ends at or after the target. */
  method FindFile(files: Level, target: IKey) returns (right: nat)
    requires FilesOk(files) && DisjointSorted(files)
    ensures right <= |files|
    ensures forall i :: 0 <= i < right ==> Before(files[i].largest, target)
    ensures forall i :: right <= i < |files| ==> !Before(files[i].largest, target)
  {
    var left := 0;
    right := |files|;
    while left < right
      invariant 0 <= left <= right <= |files|
      invariant forall i :: 0 <= i < left ==> Before(files[i].largest, target)
      invariant forall i :: right <= i < |files| ==> !Before(files[i].largest, target)
    {
      var mid := (left + right) / 2;
      FileBounds(files);
      if Before(files[mid].largest, target) {
        left := mid + 1;
      } else {
        right := mid;
      }
    }
  }

  lemma FileBounds(files: Level)
    requires FilesOk(files) && DisjointSorted(files)
    ensures forall i :: 0 <= i < |files| ==> files[i].smallest.user <= files[i].largest.user
    ensures forall i, j :: 0 <= i < j < |files| ==> files[i].largest.user < files[j].largest.user
  {
    forall i | 0 <= i < |files|
      ensures files[i].smallest.user <= files[i].largest.user
    {
      assert FileOk(files[i]);
      EntryInRange(files[i], files[i].entries[0]);
    }
  }

  /** std::sort(tmp, NewestFirst), by insertion. */
  method SortNewestFirst(files: seq<File>) returns (r: seq<File>)
    ensures multiset(r) == multiset(files)
    ensures NumbersDescend(r)
  {
    r := [];
    var i := 0;
    assert NumbersDescend(r);
    hide NumbersDescend;
    while i < |files|
      invariant 0 <= i <= |files|
      invariant multiset(r) == multiset(files[..i])
      invariant NumbersDescend(r)
    {
      var j := PlaceFor(r, files[i].number);
      assert files[..i + 1] == files[..i] + [files[i]];
      InsertedAt(r, j, files[i]);
      r := r[..j] + [files[i]] + r[j..];
      i := i + 1;
    }
    assert files[..|files|] == files;
  }

  method PlaceFor(r: seq<File>, number: nat) returns (j: nat)
    ensures j <= |r| && (j < |r| ==> r[j].number < number)
    ensures forall m :: 0 <= m < j ==> r[m].number >= number
  {
    j := 0;
    while j < |r| && r[j].number >= number
      invariant 0 <= j <= |r|
      invariant forall m :: 0 <= m < j ==> r[m].number >= number
    {
      j := j + 1;
    }
  }

  lemma InsertedAt(r: seq<File>, j: nat, f: File)
    requires NumbersDescend(r) && j <= |r| && (j < |r| ==> r[j].number < f.number)
    requires forall m :: 0 <= m < j ==> r[m].number >= f.number
    ensures NumbersDescend(r[..j] + [f] + r[j..])
    ensures multiset(r[..j] + [f] + r[j..]) == multiset(r) + multiset{f}
  {
    assert r == r[..j] + r[j..];
  }

  ghost predicate NumbersDescend(files: seq<File>)
  {
    forall i, j :: 0 <= i < j < |files| ==> files[i].number >= files[j].number
  }

  /** The search looks into file `f` of level `l`, unless it is over by then. */
  ghost predicate Tried(v: Version, k: Key, snapshot: nat, l: nat, f: File)
  {
    l < |v| && InTurn(v[l], l, k, snapshot, f)
  }

  ghost predicate InTurn(files: Level, l: nat, k: Key, snapshot: nat, f: File)
  {
    f in files && f.smallest.user <= k &&
    if l == 0 then k <= f.largest.user else !Before(f.largest, LookupKey(k, snapshot))
  }

  ghost predicate Earlier(a: (nat, File), b: (nat, File))
  {
    a.0 < b.0 || (a.0 == b.0 == 0 && a.1.number > b.1.number)
  }

  /** The files the search has read before it gets to level `n`, in order: no hit yet. */
  ghost predicate ReadBefore(v: Version, k: Key, snapshot: nat, read: seq<(nat, File)>, n: nat)
  {
    && (forall i :: 0 <= i < |read| ==> read[i].0 < n && Tried(v, k, snapshot, read[i].0, read[i].1))
    && (forall l: nat, f :: l < n && Tried(v, k, snapshot, l, f) ==> (l, f) in read)
    && (forall i, j :: 0 <= i < j < |read| ==> Earlier(read[i], read[j]))
    && (forall i :: 0 <= i < |read| ==> TableGet(read[i].1, k, snapshot).None?)
  }

  /** The files a search reads: from the newest on, up to the first that has the key. */
  ghost predicate AreRead(v: Version, k: Key, snapshot: nat, read: seq<(nat, File)>)
  {
    && (forall i :: 0 <= i < |read| ==> Tried(v, k, snapshot, read[i].0, read[i].1))
    && (forall i, j :: 0 <= i < j < |read| ==> Earlier(read[i], read[j]))
    && (forall i :: 0 <= i < |read| - 1 ==> TableGet(read[i].1, k, snapshot).None?)
    && (forall l: nat, f :: Tried(v, k, snapshot, l, f) && (l, f) !in read ==>
         read != [] && TableGet(read[|read| - 1].1, k, snapshot).Some? && Earlier(read[|read| - 1], (l, f)))
  }

  /** A read of two files or more is charged to the first. */
  function Charged(read: seq<(nat, File)>): Option<(nat, File)>
  {
    if |read| >= 2 then Some(read[0]) else None
  }

  /** `seek` is the file that reading `k` is charged to. */
  ghost predicate SeekCharged(v: Version, k: Key, snapshot: nat, seek: Option<(nat, File)>)
  {
    exists read :: AreRead(v, k, snapshot, read) && seek == Charged(read)
  }

  /** The files a search reads are given by the version. */
  lemma ReadOnce(v: Version, k: Key, snapshot: nat, a: seq<(nat, File)>, b: seq<(nat, File)>)
    requires AreRead(v, k, snapshot, a) && AreRead(v, k, snapshot, b)
    ensures a == b
  {
    hide AreRead;
    var n := if |a| < |b| then |a| else |b|;
    SamePrefix(v, k, snapshot, a, b, n);
    assert a[..|a|] == a && b[..|b|] == b;
    if |a| <= |b| {
      NoMore(v, k, snapshot, a, b);
    } else {
      NoMore(v, k, snapshot, b, a);
    }
  }

  lemma {:induction false} SamePrefix(v: Version, k: Key, snapshot: nat, a: seq<(nat, File)>, b: seq<(nat, File)>,
                                      n: nat)
    requires AreRead(v, k, snapshot, a) && AreRead(v, k, snapshot, b) && n <= |a| && n <= |b|
    ensures a[..n] == b[..n]
  {
    hide AreRead;
    if n > 0 {
      SamePrefix(v, k, snapshot, a, b, n - 1);
      SameNext(v, k, snapshot, a, b, n - 1);
      assert a[..n] == a[..n - 1] + [a[n - 1]] && b[..n] == b[..n - 1] + [b[n - 1]];
    }
  }

  lemma SameNext(v: Version, k: Key, snapshot: nat, a: seq<(nat, File)>, b: seq<(nat, File)>, i: nat)
    requires AreRead(v, k, snapshot, a) && AreRead(v, k, snapshot, b)
    requires i < |a| && i < |b| && a[..i] == b[..i]
    ensures a[i] == b[i]
  {
    NotEarlier(v, k, snapshot, a, b, i);
    NotEarlier(v, k, snapshot, b, a, i);
  }

  lemma NotEarlier(v: Version, k: Key, snapshot: nat, a: seq<(nat, File)>, b: seq<(nat, File)>, i: nat)
    requires AreRead(v, k, snapshot, a) && AreRead(v, k, snapshot, b)
    requires i < |a| && i < |b| && a[..i] == b[..i]
    ensures a[i] == b[i] || Earlier(b[i], a[i])
  {
    NotAmong(v, k, snapshot, a, i);
    if a[i] in b {
      assert b == b[..i] + b[i..];
      var j :| 0 <= j < |b[i..]| && b[i..][j] == a[i];
      assert j > 0 ==> Earlier(b[i], b[i + j]);
    } else {
      assert Tried(v, k, snapshot, a[i].0, a[i].1) && (a[i].0, a[i].1) == a[i];
      assert i < |b| - 1 ==> Earlier(b[i], b[|b| - 1]);
    }
  }

  /** A search that has gone on past the files of `b` has not hit in them. */
  lemma NoMore(v: Version, k: Key, snapshot: nat, a: seq<(nat, File)>, b: seq<(nat, File)>)
    requires AreRead(v, k, snapshot, a) && AreRead(v, k, snapshot, b) && |a| <= |b| && a == b[..|a|]
    ensures |a| == |b|
  {
    if |a| < |b| {
      NotAmong(v, k, snapshot, b, |a|);
      assert false;
    }
  }

  lemma NotAmong(v: Version, k: Key, snapshot: nat, b: seq<(nat, File)>, n: nat)
    requires AreRead(v, k, snapshot, b) && n < |b|
    ensures b[n] !in b[..n] && Tried(v, k, snapshot, b[n].0, b[n].1) && (b[n].0, b[n].1) == b[n]
    ensures n > 0 ==> TableGet(b[..n][n - 1].1, k, snapshot).None?
  {
    forall j | 0 <= j < n
      ensures b[j] != b[n]
    {
      assert Earlier(b[j], b[n]);
    }
  }

  /** Search level by level.  The second result is the file charged with a
      seek: the first file read, once a second file had to be read. */
  method Get(v: Version, k: Key, snapshot: nat) returns (r: GetResult, seek: Option<(nat, File)>)
    requires VersionOk(v)
    ensures r.Found? ==> exists e: Entry :: e.user == k && NewestVisible(v, snapshot, e) && e.op == Put(r.value)
    ensures r.NotFound? ==> forall e: Entry :: e.user == k && NewestVisible(v, snapshot, e) ==> e.op.Delete?
    ensures SeekCharged(v, k, snapshot, seek)
  {
    hide Candidates;
    hide ReadBefore;
    hide AreRead;
    hide NoneAbove;
    hide NewestVisible;
    hide TableGet;
    hide Tried;
    hide InTurn;
    hide Earlier;
    seek := None;
    var lastRead: Option<(nat, File)> := None;
    var level := 0;
    ghost var read: seq<(nat, File)> := [];
    NothingRead(v, k, snapshot);
    while level < NUM_LEVELS
      invariant 0 <= level <= NUM_LEVELS
      invariant NoneAbove(v, k, snapshot, level)
      invariant ReadBefore(v, k, snapshot, read, level) && Charges(read, lastRead, seek)
    {
      var files: seq<File>;
      if level == 0 {
        files := OverlappingNewestFirst(v[0], k, snapshot);
      } else {
        files := SingleCandidate(v[level], level, k, snapshot);
      }
      assert Candidates(files, v[level], level, k, snapshot);
      ghost var before := read;
      var hit;
      hit, lastRead, seek, read := SearchFiles(level, files, k, snapshot, lastRead, seek, read);
      if hit < |files| {
        HitIsNewest(v, k, snapshot, level, files, hit);
        ReadsEnd(v, k, snapshot, before, level, files, hit);
        assert AreRead(v, k, snapshot, read) && seek == Charged(read);
        var e := TableGet(files[hit], k, snapshot).value;
        match e.op {
          case Put(value) => return Found(value), seek;
          case Delete => return NotFound, seek;
        }
      }
      MissExtends(v, k, snapshot, level, files);
      assert files[..|files|] == files;
      ReadOn(v, k, snapshot, before, level, files);
      level := level + 1;
    }
    NothingVisible(v, k, snapshot);
    AllRead(v, k, snapshot, read);
    r := NotFound;
  }

  /** `lastRead` and `seek` are what the loop remembers of the files read. */
  ghost predicate Charges(read: seq<(nat, File)>, lastRead: Option<(nat, File)>, seek: Option<(nat, File)>)
  {
    lastRead == (if read == [] then None else Some(read[|read| - 1])) && seek == Charged(read)
  }

  ghost function AtLevel(level: nat, files: seq<File>): (r: seq<(nat, File)>)
    ensures |r| == |files| && forall i :: 0 <= i < |files| ==> r[i] == (level, files[i])
  {
    seq(|files|, i requires 0 <= i < |files| => (level, files[i]))
  }

  method SearchFiles(level: nat, files: seq<File>, k: Key, snapshot: nat,
                     lastRead0: Option<(nat, File)>, seek0: Option<(nat, File)>, ghost read0: seq<(nat, File)>)
    returns (i: nat, lastRead: Option<(nat, File)>, seek: Option<(nat, File)>, ghost read: seq<(nat, File)>)
    requires Charges(read0, lastRead0, seek0)
    ensures i <= |files|
    ensures forall j :: 0 <= j < i ==> TableGet(files[j], k, snapshot).None?
    ensures i < |files| ==> TableGet(files[i], k, snapshot).Some?
    ensures read == read0 + AtLevel(level, files[..if i < |files| then i + 1 else i])
    ensures Charges(read, lastRead, seek)
  {
    lastRead, seek, read := lastRead0, seek0, read0;
    i := 0;
    assert read == read0 + AtLevel(level, files[..0]);
    hide Charges;
    while i < |files|
      invariant 0 <= i <= |files|
      invariant forall j :: 0 <= j < i ==> TableGet(files[j], k, snapshot).None?
      invariant read == read0 + AtLevel(level, files[..i]) && Charges(read, lastRead, seek)
    {
      ReadOne(level, files, i, read0, lastRead, seek);
      if lastRead.Some? && seek.None? {
        seek := lastRead;
      }
      lastRead := Some((level, files[i]));
      read := read + [(level, files[i])];
      if TableGet(files[i], k, snapshot).Some? {
        return;
      }
      i := i + 1;
    }
  }

  /** One more file read: the first to have been read is charged if it is not the only one. */
  lemma ReadOne(level: nat, files: seq<File>, i: nat, read0: seq<(nat, File)>, lastRead: Option<(nat, File)>,
                seek: Option<(nat, File)>)
    requires i < |files| && Charges(read0 + AtLevel(level, files[..i]), lastRead, seek)
    ensures var more := read0 + AtLevel(level, files[..i]) + [(level, files[i])];
      && more == read0 + AtLevel(level, files[..i + 1])
      && Charges(more, Some((level, files[i])), if lastRead.Some? && seek.None? then lastRead else seek)
  {
    var before, last := read0 + AtLevel(level, files[..i]), [(level, files[i])];
    assert AtLevel(level, files[..i + 1]) == AtLevel(level, files[..i]) + last;
    assert before + last == read0 + (AtLevel(level, files[..i]) + last);
  }

  lemma NothingRead(v: Version, k: Key, snapshot: nat)
    ensures ReadBefore(v, k, snapshot, [], 0) && (|v| == NUM_LEVELS ==> NoneAbove(v, k, snapshot, 0))
  {
  }

  lemma AllRead(v: Version, k: Key, snapshot: nat, read: seq<(nat, File)>)
    requires ReadBefore(v, k, snapshot, read, |v|)
    ensures AreRead(v, k, snapshot, read)
  {
  }

  /** A level without a hit. */
  lemma ReadOn(v: Version, k: Key, snapshot: nat, read: seq<(nat, File)>, level: nat, files: seq<File>)
    requires ReadBefore(v, k, snapshot, read, level) && level < |v|
    requires Candidates(files, v[level], level, k, snapshot)
    requires forall j :: 0 <= j < |files| ==> TableGet(files[j], k, snapshot).None?
    ensures ReadBefore(v, k, snapshot, read + AtLevel(level, files), level + 1)
  {
    hide TableGet;
    hide InTurn;
    var more := read + AtLevel(level, files);
    forall l: nat, f | l < level + 1 && Tried(v, k, snapshot, l, f)
      ensures (l, f) in more
    {
      if l == level {
        var j :| 0 <= j < |files| && files[j] == f;
        assert more[|read| + j] == (l, f);
      }
    }
  }

  /** The first hit ends the search. */
  lemma ReadsEnd(v: Version, k: Key, snapshot: nat, read: seq<(nat, File)>, level: nat, files: seq<File>, hit: nat)
    requires ReadBefore(v, k, snapshot, read, level) && level < |v| && hit < |files|
    requires Candidates(files, v[level], level, k, snapshot)
    requires forall j :: 0 <= j < hit ==> TableGet(files[j], k, snapshot).None?
    requires TableGet(files[hit], k, snapshot).Some?
    ensures AreRead(v, k, snapshot, read + AtLevel(level, files[..hit + 1]))
  {
    hide TableGet;
    hide InTurn;
    var last := (level, files[hit]);
    var all := read + AtLevel(level, files[..hit + 1]);
    assert all[|all| - 1] == last;
    assert forall j :: 0 <= j <= hit ==> all[|read| + j] == (level, files[j]) && (level, files[j]) in all;
    forall l: nat, f | Tried(v, k, snapshot, l, f) && (l, f) !in all
      ensures Earlier(last, (l, f))
    {
      if l == level {
        var j :| 0 <= j < |files| && files[j] == f;
      }
    }
  }

  lemma ChargedLevel(v: Version, k: Key, snapshot: nat, seek: Option<(nat, File)>)
    requires SeekCharged(v, k, snapshot, seek) && |v| == NUM_LEVELS
    ensures seek.Some? ==> seek.value.0 < NUM_LEVELS - 1 && seek.value.1 in v[seek.value.0]
  {
    var read: seq<(nat, File)> :| AreRead(v, k, snapshot, read) && seek == Charged(read);
    if |read| >= 2 {
      assert Earlier(read[0], read[1]) && Tried(v, k, snapshot, read[1].0, read[1].1);
    }
  }

  lemma NothingVisible(v: Version, k: Key, snapshot: nat)
    requires |v| == NUM_LEVELS && NoneAbove(v, k, snapshot, NUM_LEVELS)
    ensures forall e: Entry :: e.user == k ==> !NewestVisible(v, snapshot, e)
  {
  }

  /** No entry of `k` visible at `snapshot` in levels before `level`. */
  ghost predicate NoneAbove(v: Version, k: Key, snapshot: nat, level: nat)
    requires |v| == NUM_LEVELS && level <= NUM_LEVELS
  {
    forall l, f, x :: 0 <= l < level && f in v[l] && x in f.entries && x.user == k ==> x.seqno > snapshot
  }

  /** The files of level `l` to look into, in search order. */
  ghost predicate Candidates(files: seq<File>, level: Level, l: nat, k: Key, snapshot: nat)
  {
    && (forall f :: f in files <==> InTurn(level, l, k, snapshot, f))
    && (forall i, j :: 0 <= i < j < |files| ==> l == 0 && files[i].number > files[j].number)
  }

  /** Every file of the level that may show `k` at `snapshot` is looked into. */
  lemma NoOtherShows(level: Level, l: nat, k: Key, snapshot: nat, f: File, x: Entry)
    requires FilesOk(level) && f in level && x in f.entries && x.user == k && x.seqno <= snapshot
    ensures InTurn(level, l, k, snapshot, f)
  {
    EntryInRange(f, x);
    LastEntryNotBefore(f, x);
  }

  method OverlappingNewestFirst(level: Level, k: Key, ghost snapshot: nat) returns (files: seq<File>)
    requires SortedBySmallest(level) && NewestByNumber(level)
    ensures Candidates(files, level, 0, k, snapshot)
  {
    var tmp: seq<File> := [];
    var i := 0;
    while i < |level|
      invariant 0 <= i <= |level|
      invariant forall f :: f in tmp <==> f in level[..i] && Covers(f, k)
      invariant Distinct(tmp)
    {
      if level[i].smallest.user <= k && k <= level[i].largest.user {
        NotBeforeItself(level, i);
        tmp := tmp + [level[i]];
      }
      assert level[..i + 1] == level[..i] + [level[i]];
      i := i + 1;
    }
    assert level[..|level|] == level;
    files := SortNewestFirst(tmp);
    SameMembers(tmp, files);
  }

  lemma NotBeforeItself(level: Level, i: nat)
    requires SortedBySmallest(level) && i < |level|
    ensures level[i] !in level[..i]
  {
    forall j | 0 <= j < i
      ensures level[j] != level[i]
    {
      assert BySmallestKey(level[j], level[i]);
    }
  }

  /** A rearrangement of files without repetition has none. */
  lemma SameMembers(files: seq<File>, r: seq<File>)
    requires Distinct(files) && multiset(r) == multiset(files)
    ensures Distinct(r) && forall f :: f in r <==> f in files
  {
    forall f
      ensures f in r <==> f in files
    {
      assert f in multiset(r) <==> f in multiset(files);
    }
    forall i, j | 0 <= i < j < |r|
      ensures r[i] != r[j]
    {
      CountsTwice(r, i, j);
      CountsOnce(files, r[i]);
    }
  }

  lemma CountsTwice(r: seq<File>, i: nat, j: nat)
    requires i < j < |r|
    ensures r[i] == r[j] ==> multiset(r)[r[i]] >= 2
  {
    assert r == r[..j] + r[j..] && r[..j][i] == r[i] && r[j..][0] == r[j];
    assert multiset(r) == multiset(r[..j]) + multiset(r[j..]);
  }

  lemma {:induction false} CountsOnce(files: seq<File>, f: File)
    requires Distinct(files)
    ensures multiset(files)[f] <= 1
  {
    if files != [] {
      var init, last := files[..|files| - 1], files[|files| - 1];
      CountsOnce(init, f);
      assert files == init + [last] && last !in init;
      assert f in multiset(init) <==> f in init;
    }
  }

  method SingleCandidate(level: Level, l: nat, k: Key, snapshot: nat) returns (files: seq<File>)
    requires FilesOk(level) && DisjointSorted(level) && l > 0
    ensures Candidates(files, level, l, k, snapshot)
  {
    var index := FindFile(level, LookupKey(k, snapshot));
    if index >= |level| {
      files := [];
    } else if k < level[index].smallest.user {
      files := [];
    } else {
      files := [level[index]];
    }
    OneInTurn(level, l, k, snapshot, index);
  }

  lemma OneInTurn(level: Level, l: nat, k: Key, snapshot: nat, index: nat)
    requires FilesOk(level) && DisjointSorted(level) && l > 0 && index <= |level|
    requires forall i :: 0 <= i < index ==> Before(level[i].largest, LookupKey(k, snapshot))
    requires forall i :: index <= i < |level| ==> !Before(level[i].largest, LookupKey(k, snapshot))
    ensures forall f :: InTurn(level, l, k, snapshot, f) <==>
      index < |level| && f == level[index] && f.smallest.user <= k
  {
    FileBounds(level);
    assert forall i :: index < i < |level| ==> level[index].largest.user < level[i].smallest.user;
    forall f | InTurn(level, l, k, snapshot, f)
      ensures index < |level| && f == level[index]
    {
      var i :| 0 <= i < |level| && level[i] == f;
    }
  }

  lemma LastEntryNotBefore(f: File, x: Entry)
    requires FileOk(f) && x in f.entries
    ensures f.largest == KeyOf(x) || Before(KeyOf(x), f.largest)
  {
    var i :| 0 <= i < |f.entries| && f.entries[i] == x;
    assert i < |f.entries| - 1 ==> EntryBefore(f.entries[i], f.entries[|f.entries| - 1]);
  }

  lemma TableGetFindsNewest(f: File, k: Key, snapshot: nat)
    requires FileOk(f)
    ensures var r := TableGet(f, k, snapshot);
      match r
      case None => forall x :: x in f.entries && x.user == k ==> x.seqno > snapshot
      case Some(e) =>
        && e in f.entries && e.user == k && e.seqno <= snapshot
        && forall x :: x in f.entries && x.user == k && x.seqno <= snapshot ==> x.seqno <= e.seqno
  {
    SeekUserFindsNewest(f.entries, k, snapshot);
  }

  lemma HitIsNewest(v: Version, k: Key, snapshot: nat, level: nat, files: seq<File>, i: nat)
    requires |v| == NUM_LEVELS && level < NUM_LEVELS && NoneAbove(v, k, snapshot, level)
    requires FilesOk(v[level]) && LayeredLevels(v) && UniqueSequences(v) && (level == 0 ==> NewestByNumber(v[0]))
    requires Candidates(files, v[level], level, k, snapshot)
    requires i < |files| && forall j :: 0 <= j < i ==> TableGet(files[j], k, snapshot).None?
    requires TableGet(files[i], k, snapshot).Some?
    ensures var e := TableGet(files[i], k, snapshot).value;
      e.user == k && NewestVisible(v, snapshot, e)
      && forall x: Entry :: x.user == k && NewestVisible(v, snapshot, x) ==> x == e
  {
    var f := files[i];
    assert f in files && InTurn(v[level], level, k, snapshot, f);
    TableGetFindsNewest(f, k, snapshot);
    var e := TableGet(f, k, snapshot).value;
    forall l, g, x | 0 <= l < |v| && g in v[l] && x in g.entries && x.user == k && x.seqno <= snapshot
      ensures x.seqno <= e.seqno
    {
      if l == level {
        HitInLevel(v[l], level, files, i, k, snapshot, e, g, x);
      } else {
        assert l > level;
        assert NewerFile(f, g);
      }
    }
    assert InVersion(v, e);
  }

  /** No other file of the hit's level shows a newer entry. */
  lemma HitInLevel(files0: Level, level: nat, files: seq<File>, i: nat, k: Key, snapshot: nat, e: Entry, g: File,
                   x: Entry)
    requires FilesOk(files0) && (level == 0 ==> NewestByNumber(files0))
    requires Candidates(files, files0, level, k, snapshot)
    requires i < |files| && forall j :: 0 <= j < i ==> TableGet(files[j], k, snapshot).None?
    requires e in files[i].entries && e.user == k
    requires forall y :: y in files[i].entries && y.user == k && y.seqno <= snapshot ==> y.seqno <= e.seqno
    requires g in files0 && x in g.entries && x.user == k && x.seqno <= snapshot
    ensures x.seqno <= e.seqno
  {
    NoOtherShows(files0, level, k, snapshot, g, x);
    var j :| 0 <= j < |files| && files[j] == g;
    TableGetFindsNewest(g, k, snapshot);
    assert j >= i && files[i] in files && InTurn(files0, level, k, snapshot, files[i]);
    if g != files[i] {
      assert files[i].number >= g.number;
      assert NewerFile(files[i], g);
    }
  }

  lemma MissExtends(v: Version, k: Key, snapshot: nat, level: nat, files: seq<File>)
    requires |v| == NUM_LEVELS && level < NUM_LEVELS && NoneAbove(v, k, snapshot, level) && FilesOk(v[level])
    requires Candidates(files, v[level], level, k, snapshot)
    requires forall j :: 0 <= j < |files| ==> TableGet(files[j], k, snapshot).None?
    ensures NoneAbove(v, k, snapshot, level + 1)
  {
    forall f, x | f in v[level] && x in f.entries && x.user == k
      ensures x.seqno > snapshot
    {
      if x.seqno <= snapshot {
        NoOtherShows(v[level], level, k, snapshot, f, x);
        var j :| 0 <= j < |files| && files[j] == f;
        TableGetFindsNewest(f, k, snapshot);
      }
    }
  }
}
