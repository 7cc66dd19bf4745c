/** Crash and reopen (db/db_impl.cc, Recover, RecoverLogFile, DB::Open).

    A crash keeps what is durable: the manifest records and the complete records
    of every log file.  Memory, the running compaction and any half-written table
    or log record are gone. */
module Reopen {
  import opened Wrappers
  import opened Keys
  import opened Files
  import opened VersionSteps
  import opened Builder
  import opened Manifest
  import opened Store

  ghost predicate Increasing(order: seq<nat>)
  {
    forall i, j :: 0 <= i < j < |order| ==> order[i] < order[j]
  }

  /** The log files Recover reads, in the order it reads them. */
  ghost predicate LogsToReplay(s: State, order: seq<nat>)
    requires RecordedOk(s)
  {
    var minLog := LastSet(s.manifest, LogNumberOf).value;
    var prevLog := match LastSet(s.manifest, PrevLogNumberOf) case Some(n) => n case None => 0;
    Increasing(order) && forall n :: n in order <==> n in s.logs && (n >= minLog || n == prevLog)
  }

  /** All entries of those logs, record after record. */
  function Replayed(logs: map<nat, seq<Group>>, order: seq<nat>): seq<Entry>
    requires forall n :: n in order ==> n in logs
  {
    if order == [] then []
    else Replayed(logs, order[..|order| - 1]) + Flatten(logs[order[|order| - 1]])
  }

  /** The choice of logs loses nothing and repeats nothing: what is replayed is
      exactly the writes that are in no table file yet. */
  lemma ReplayIsTheTail(s: State, order: seq<nat>)
    requires LogsOk(s) && RecordedOk(s) && LogsToReplay(s, order) && (s.imm.None? ==> s.flushed == s.memStart)
    ensures Replayed(s.logs, order) == Writes(s)[s.flushed..]
    ensures forall n :: n in s.logs ==> n <= s.logNumber || n in order
    ensures s.logNumber in order && s.logFile in order
  {
    hide Flatten;
    hide Replayed;
    WhichLogs(s, order);
    ReplayAtMostTwo(s.logs, order, s.logNumber, s.logFile);
    assert Writes(s)[s.flushed..] == Writes(s)[s.flushed..s.memStart] + Writes(s)[s.memStart..];
  }

  lemma ReplayAtMostTwo(logs: map<nat, seq<Group>>, order: seq<nat>, a: nat, b: nat)
    requires a in logs && b in logs && order == if a == b then [b] else [a, b]
    ensures Replayed(logs, order) == if a == b then Flatten(logs[b]) else Flatten(logs[a]) + Flatten(logs[b])
  {
    hide Flatten;
    assert [a][..0] == [] && [b][..0] == [] && [a, b][..1] == [a];
    assert Replayed(logs, [a]) == Replayed(logs, []) + Flatten(logs[a]);
    assert Replayed(logs, [b]) == Replayed(logs, []) + Flatten(logs[b]);
  }

  /** The logs replayed are the immutable memtable's, if there is one, and the current one. */
  lemma WhichLogs(s: State, order: seq<nat>)
    requires LogsOk(s) && RecordedOk(s) && LogsToReplay(s, order)
    ensures order == if s.logNumber == s.logFile then [s.logFile] else [s.logNumber, s.logFile]
    ensures forall n :: n in s.logs ==> n <= s.logNumber || n in order
  {
    assert forall n :: n in order <==> n == s.logNumber || n == s.logFile;
    if s.logNumber == s.logFile {
      OneLog(order, s.logFile);
    } else {
      TwoLogs(order, s.logNumber, s.logFile);
    }
  }

  lemma OneLog(order: seq<nat>, a: nat)
    requires Increasing(order) && forall n :: n in order <==> n == a
    ensures order == [] + [a]
  {
    assert a in order;
    var first, last := order[0], order[|order| - 1];
    assert first in order && last in order;
  }

  lemma TwoLogs(order: seq<nat>, a: nat, b: nat)
    requires Increasing(order) && a < b && forall n :: n in order <==> n == a || n == b
    ensures order == [a, b]
  {
    assert a in order && b in order;
    var first, middle, last := order[0], order[|order| / 2], order[|order| - 1];
    assert first in order && middle in order && last in order;
    var i :| 0 <= i < |order| && order[i] == a;
    var j :| 0 <= j < |order| && order[j] == b;
    assert i < j;
  }

  /** Each chunk of replayed writes became one level-0 table. */
  ghost predicate TablesFor(chunks: seq<seq<Entry>>, tables: Level, first: nat, limit: nat)
  {
    && |chunks| == |tables| && FilesOk(tables)
    && (forall i, e :: 0 <= i < |tables| ==> (e in tables[i].entries <==> e in chunks[i]))
    && (forall i, j :: 0 <= i < j < |tables| ==> tables[i].number < tables[j].number)
    && (forall i :: 0 <= i < |tables| ==> first <= tables[i].number < limit)
  }

  /** Reopening after a crash.  `order` are the logs read, `chunks` how their
      entries were cut into tables, `e` the edit that installs the tables. */
  ghost predicate ReopenStep(s: State, t: State, order: seq<nat>, chunks: seq<seq<Entry>>, tables: Level,
                             snapshot: Edit, e: Edit, next: Version, newLog: nat)
    requires RecordedOk(s)
  {
    && LogsToReplay(s, order)
    && Flatten(chunks) == Replayed(s.logs, order)
    && TablesFor(chunks, tables, FirstFile(s), newLog)
    && FirstFile(s) <= newLog && (forall n :: n in order ==> n < newLog) && newLog > s.logNumber
    && IsSnapshotRecord(snapshot, s.version)
    && RecoveryEdit(s.version, tables, e, newLog, ReplayedSequence(Replayed(s.logs, order), RecordedSequence(s)), next)
    && t == Fresh(s, snapshot, e, next)
  }

  /** The first file number the reopened store may hand out. */
  ghost function FirstFile(s: State): nat
    requires RecordedOk(s)
  {
    LastSet(s.manifest, NextFileOf).value
  }

  ghost function RecordedSequence(s: State): nat
    requires RecordedOk(s)
  {
    LastSet(s.manifest, LastSequenceOf).value
  }

  /** The first record of the new manifest. */
  ghost predicate IsSnapshotRecord(snapshot: Edit, v: Version)
  {
    && EditOk(snapshot) && IsSnapshot(snapshot, v)
    && snapshot.logNumber.None? && snapshot.prevLogNumber.None?
    && snapshot.nextFile.None? && snapshot.lastSequence.None?
  }

  /** The edit that adds the recovered tables and makes all older logs obsolete. */
  ghost predicate RecoveryEdit(v: Version, tables: Level, e: Edit, newLog: nat, sequence: nat, next: Version)
  {
    && EditOk(e) && e.deleted == {} && (forall l, g :: AddsFile(e, l, g) <==> l == 0 && g in tables)
    && e.logNumber == Some(newLog) && e.prevLogNumber == Some(0)
    && e.nextFile == Some(newLog + 1) && e.lastSequence == Some(sequence)
    && AfterEdit(v, e, next)
  }

  /** The state DB::Open leaves behind: empty memtable, one new log. */
  function Fresh(s: State, snapshot: Edit, e: Edit, next: Version): State
    requires e.logNumber.Some? && e.nextFile.Some? && e.lastSequence.Some?
  {
    var newLog, sequence := e.logNumber.value, e.lastSequence.value;
    State(s.groups, |s.groups|, sequence, sequence, sequence, sequence, [], None, next, None,
          e.nextFile.value, {}, newLog, newLog, s.logs[newLog := []], [snapshot, e], [s.version, next])
  }

  /** max of the manifest's last sequence and the last one seen in the logs. */
  function ReplayedSequence(replayed: seq<Entry>, recorded: nat): nat
  {
    if replayed == [] then recorded
    else if replayed[|replayed| - 1].seqno > recorded then replayed[|replayed| - 1].seqno else recorded
  }

  /** The store comes back with exactly the groups whose records were complete. */
  lemma ReopenInv(s: State, t: State, order: seq<nat>, chunks: seq<seq<Entry>>, tables: Level,
                  snapshot: Edit, e: Edit, next: Version, newLog: nat)
    requires Inv(s) && ReopenStep(s, t, order, chunks, tables, snapshot, e, next, newLog)
    ensures Inv(t)
    ensures Visible(t) == Writes(s) && t.groups == s.groups
  {
    ReplayIsTheTail(s, order);
    SequenceRecovered(s, order);
    ReopenWrites(s, t);
    ReopenTables(s, t, chunks, tables, e, next, newLog);
    ReopenNumbers(s, t, tables, snapshot, e, next, newLog);
    ReopenManifest(s, t, tables, snapshot, e, next);
    ReopenRecorded(s, t, snapshot, e, next);
    ReopenLogs(s, t, order, newLog);
  }

  lemma ReopenWrites(s: State, t: State)
    requires WritesOk(s) && t.groups == s.groups && t.published == |s.groups|
    requires t.flushed == t.memStart == t.inserted == t.lastSequence == |Writes(s)|
    ensures WritesOk(t) && Visible(t) == Writes(s) == Writes(t)
  {
    assert t.groups[..t.published] == s.groups;
  }

  lemma SequenceRecovered(s: State, order: seq<nat>)
    requires WritesOk(s) && RecordedOk(s) && LogsToReplay(s, order)
    requires Replayed(s.logs, order) == Writes(s)[s.flushed..]
    ensures ReplayedSequence(Replayed(s.logs, order), RecordedSequence(s)) == |Writes(s)|
  {
    var tail := Writes(s)[s.flushed..];
    if tail != [] {
      assert tail[|tail| - 1] == Writes(s)[|Writes(s)| - 1];
    }
  }

  lemma ReopenTables(s: State, t: State, chunks: seq<seq<Entry>>, tables: Level, e: Edit, next: Version, newLog: nat)
    requires WritesOk(s) && TablesOk(s) && RecordedOk(s)
    requires Flatten(chunks) == Writes(s)[s.flushed..]
    requires TablesFor(chunks, tables, FirstFile(s), newLog)
    requires RecoveryEdit(s.version, tables, e, newLog, |Writes(s)|, next)
    requires t.groups == s.groups && t.version == next && t.mem == [] && t.imm.None?
    requires t.flushed == t.memStart == t.inserted == |Writes(s)|
    ensures TablesOk(t)
  {
    var w := Writes(s);
    RecoveryAtLevelZero(s.version, tables, e, newLog, |w|, next);
    forall x
      ensures InVersion(next, x) <==> InVersion(s.version, x) || (s.flushed < x.seqno && IsWrite(w, |w|, x))
    {
      RecoveredEntries(s.version, next, w, s.flushed, chunks, tables, x);
    }
    NewerWritesKeepReads(s.version, next, w, s.flushed, |w|);
    RepresentsDistinct(next, w, |w|);
    TablesKeepLevels(s.version, next, w, s.flushed, chunks, tables, FirstFile(s), newLog);
    assert Writes(t) == w;
  }

  lemma RecoveryAtLevelZero(v: Version, tables: Level, e: Edit, newLog: nat, sequence: nat, next: Version)
    requires RecoveryEdit(v, tables, e, newLog, sequence, next)
    ensures AtLevelZero(v, tables, next)
  {
    forall l, g | 0 <= l < NUM_LEVELS
      ensures g in next[l] <==> OldOrRecovered(v, tables, l, g)
    {
      assert g in next[l] <==> Keeps(v, e, l, g);
    }
  }

  ghost predicate AtLevelZero(v: Version, tables: Level, next: Version)
  {
    && |v| == |next| == NUM_LEVELS
    && (forall l :: 0 <= l < NUM_LEVELS ==> SortedBySmallest(next[l]))
    && (forall l, g :: 0 <= l < NUM_LEVELS ==> (g in next[l] <==> OldOrRecovered(v, tables, l, g)))
  }

  ghost predicate OldOrRecovered(v: Version, tables: Level, l: nat, g: File)
    requires l < |v|
  {
    g in v[l] || (l == 0 && g in tables)
  }

  lemma InTail(w: seq<Entry>, from: nat, x: Entry)
    requires Numbered(w) && from <= |w|
    ensures x in w[from..] <==> from < x.seqno && IsWrite(w, |w|, x)
  {
    if x in w[from..] {
      var i :| 0 <= i < |w| - from && w[from..][i] == x;
      assert w[from + i] == x;
    }
    if from < x.seqno && IsWrite(w, |w|, x) {
      assert w[from..][x.seqno - 1 - from] == x;
    }
  }

  lemma InChunks(w: seq<Entry>, from: nat, chunks: seq<seq<Entry>>, x: Entry)
    requires Numbered(w) && from <= |w| && Flatten(chunks) == w[from..]
    ensures (exists i :: 0 <= i < |chunks| && x in chunks[i]) <==> from < x.seqno && IsWrite(w, |w|, x)
  {
    FlattenMember(chunks, x);
    InTail(w, from, x);
  }

  lemma RecoveredEntries(v: Version, next: Version, w: seq<Entry>, from: nat, chunks: seq<seq<Entry>>, tables: Level,
                         x: Entry)
    requires AtLevelZero(v, tables, next) && Numbered(w) && from <= |w| && Flatten(chunks) == w[from..]
    requires |chunks| == |tables| && forall i, e :: 0 <= i < |tables| ==> (e in tables[i].entries <==> e in chunks[i])
    ensures InVersion(next, x) <==> InVersion(v, x) || (from < x.seqno && IsWrite(w, |w|, x))
  {
    InChunks(w, from, chunks, x);
    if InVersion(v, x) {
      var l, f :| 0 <= l < |v| && f in v[l] && x in f.entries;
      assert OldOrRecovered(v, tables, l, f);
    } else if from < x.seqno && IsWrite(w, |w|, x) {
      var i :| 0 <= i < |chunks| && x in chunks[i];
      assert OldOrRecovered(v, tables, 0, tables[i]) && x in tables[i].entries;
    }
    if InVersion(next, x) && !InVersion(v, x) {
      var l, f :| 0 <= l < |next| && f in next[l] && x in f.entries;
      assert f in tables;
      var i :| 0 <= i < |tables| && tables[i] == f;
      assert x in chunks[i];
    }
  }

  /** A table with a larger number holds newer entries. */
  lemma LaterTableNewer(w: seq<Entry>, from: nat, chunks: seq<seq<Entry>>, tables: Level, i: nat, j: nat)
    requires Numbered(w) && from <= |w| && Flatten(chunks) == w[from..] && i < j < |tables| == |chunks|
    requires forall k, e :: 0 <= k < |tables| ==> (e in tables[k].entries <==> e in chunks[k])
    ensures NewerFile(tables[j], tables[i])
  {
    forall x, y | x in tables[j].entries && y in tables[i].entries
      ensures x.seqno > y.seqno
    {
      var a :| 0 <= a < |chunks[j]| && chunks[j][a] == x;
      var b :| 0 <= b < |chunks[i]| && chunks[i][b] == y;
      FlattenAt(chunks, j, a);
      FlattenAt(chunks, i, b);
      OffsetGrows(chunks, i, j);
    }
  }

  lemma TablesKeepLevels(v: Version, next: Version, w: seq<Entry>, from: nat, chunks: seq<seq<Entry>>, tables: Level,
                         first: nat, limit: nat)
    requires VersionOk(v) && AtLevelZero(v, tables, next) && UniqueSequences(next)
    requires Represents(v, w, from) && Numbered(w) && from <= |w| && Flatten(chunks) == w[from..]
    requires TablesFor(chunks, tables, first, limit) && forall f :: f in v[0] ==> f.number < first
    ensures VersionOk(next)
  {
    forall l, g, t | 0 <= l < NUM_LEVELS && g in v[l] && t in tables
      ensures NewerFile(t, g)
    {
      TableNewer(v, w, from, chunks, tables, l, g, t);
    }
    assert forall g :: g in next[0] <==> g in v[0] || g in tables by {
      forall g
        ensures g in next[0] <==> OldOrRecovered(v, tables, 0, g)
      {
      }
    }
    TablesByNumber(v, next[0], w, from, chunks, tables, first, limit);
    RecoveredLayers(v, tables, next);
  }

  lemma RecoveredLayers(v: Version, tables: Level, next: Version)
    requires AtLevelZero(v, tables, next) && LayeredLevels(v) && LevelsOk(v) && FilesOk(tables)
    requires forall l, g, t :: 0 <= l < NUM_LEVELS && g in v[l] && t in tables ==> NewerFile(t, g)
    ensures LayeredLevels(next) && LevelsOk(next)
  {
    forall l, g | 0 <= l < NUM_LEVELS && g in next[l]
      ensures g in v[l] || (l == 0 && g in tables)
    {
      assert OldOrRecovered(v, tables, l, g);
    }
    forall l | 0 < l < NUM_LEVELS
      ensures DisjointSorted(next[l])
    {
      SameLevelDisjoint(v[l], next[l]);
    }
  }

  lemma TableNewer(v: Version, w: seq<Entry>, from: nat, chunks: seq<seq<Entry>>, tables: Level, l: nat, g: File,
                   t: File)
    requires Represents(v, w, from) && Numbered(w) && from <= |w| && Flatten(chunks) == w[from..]
    requires |chunks| == |tables| && forall k, e :: 0 <= k < |tables| ==> (e in tables[k].entries <==> e in chunks[k])
    requires l < |v| && g in v[l] && t in tables
    ensures NewerFile(t, g)
  {
    var i :| 0 <= i < |tables| && tables[i] == t;
    forall x | x in t.entries
      ensures x.seqno > from
    {
      assert x in chunks[i];
      InChunks(w, from, chunks, x);
    }
    OlderInVersion(v, w, from, t, l, g);
  }

  lemma TablesByNumber(v: Version, next: Level, w: seq<Entry>, from: nat, chunks: seq<seq<Entry>>, tables: Level,
                       first: nat, limit: nat)
    requires |v| == NUM_LEVELS && NewestByNumber(v[0]) && forall g :: g in next <==> g in v[0] || g in tables
    requires Numbered(w) && from <= |w| && Flatten(chunks) == w[from..]
    requires TablesFor(chunks, tables, first, limit) && forall f :: f in v[0] ==> f.number < first
    requires forall g, t :: g in v[0] && t in tables ==> NewerFile(t, g)
    ensures NewestByNumber(next)
  {
    forall f, g | f in next && g in next && f != g
      ensures f.number != g.number && (f.number > g.number ==> NewerFile(f, g))
    {
      if f in tables && g in tables {
        var i :| 0 <= i < |tables| && tables[i] == f;
        var j :| 0 <= j < |tables| && tables[j] == g;
        if j < i {
          LaterTableNewer(w, from, chunks, tables, j, i);
        }
      }
    }
  }

  lemma ReopenNumbers(s: State, t: State, tables: Level, snapshot: Edit, e: Edit, next: Version, newLog: nat)
    requires NumbersOk(s) && RecordedOk(s) && FirstFile(s) <= newLog
    requires IsSnapshot(snapshot, s.version) && RecoveryEdit(s.version, tables, e, newLog, t.lastSequence, next)
    requires forall i, j :: 0 <= i < j < |tables| ==> tables[i].number < tables[j].number
    requires forall i :: 0 <= i < |tables| ==> FirstFile(s) <= tables[i].number < newLog
    requires t.version == next && t.manifest == [snapshot, e] && t.pending == {} && t.nextFile == newLog + 1
    ensures NumbersOk(t)
  {
    RecoveryAtLevelZero(s.version, tables, e, newLog, t.lastSequence, next);
    TablesDistinct(tables);
    RecoveredDistinct(s.version, next, tables, FirstFile(s));
    RecoveredRecords(s.version, tables, snapshot, e, next);
    forall l: nat, n: nat | AddedAt(t.manifest, l, n)
      ensures n < t.nextFile
    {
      AddedInRecovery(s.version, tables, snapshot, e, l, n);
    }
    forall l, f | 0 <= l < NUM_LEVELS && f in next[l]
      ensures f.number < t.nextFile
    {
      assert OldOrRecovered(s.version, tables, l, f);
    }
  }

  lemma AddedInRecovery(v: Version, tables: Level, snapshot: Edit, e: Edit, l: nat, n: nat)
    requires |v| == NUM_LEVELS && IsSnapshot(snapshot, v)
    requires forall l, g :: AddsFile(e, l, g) <==> l == 0 && g in tables
    requires AddedAt([snapshot, e], l, n)
    ensures (l < NUM_LEVELS && exists g :: g in v[l] && g.number == n) || (l == 0 && exists g ::
      g in tables && g.number == n)
  {
    var i :| 0 <= i < 2 && AddsNumber([snapshot, e][i], l, n);
    var g :| AddsFile([snapshot, e][i], l, g) && g.number == n;
    assert i == 0 ==> AddsFile(snapshot, l, g);
    assert i == 1 ==> AddsFile(e, l, g);
  }

  lemma RecoveredRecords(v: Version, tables: Level, snapshot: Edit, e: Edit, next: Version)
    requires IsSnapshot(snapshot, v) && AtLevelZero(v, tables, next) && NumbersDistinct(next)
    requires forall l, g :: AddsFile(e, l, g) <==> l == 0 && g in tables
    ensures OnlySinks([snapshot, e], next)
  {
    forall l: nat, m: nat, f | m < NUM_LEVELS && f in next[m] && AddedAt([snapshot, e], l, f.number)
      ensures l <= m
    {
      AddedInRecovery(v, tables, snapshot, e, l, f.number);
      if l > 0 {
        var g :| g in v[l] && g.number == f.number;
        assert OldOrRecovered(v, tables, l, g);
      }
    }
  }

  lemma TablesDistinct(tables: Level)
    requires forall i, j :: 0 <= i < j < |tables| ==> tables[i].number < tables[j].number
    ensures forall f, g :: f in tables && g in tables ==> f.number == g.number ==> f == g
  {
    forall f, g | f in tables && g in tables && f.number == g.number
      ensures f == g
    {
      var i :| 0 <= i < |tables| && tables[i] == f;
      var j :| 0 <= j < |tables| && tables[j] == g;
    }
  }

  lemma RecoveredDistinct(v: Version, next: Version, tables: Level, first: nat)
    requires NumbersDistinct(v) && AtLevelZero(v, tables, next)
    requires forall l, f :: 0 <= l < NUM_LEVELS && f in v[l] ==> f.number < first
    requires forall f :: f in tables ==> f.number >= first
    requires forall f, g :: f in tables && g in tables ==> f.number == g.number ==> f == g
    ensures NumbersDistinct(next)
  {
    forall l, m, f, g |
      0 <= l < NUM_LEVELS && 0 <= m < NUM_LEVELS && f in next[l] && g in next[m] && f.number == g.number
      ensures l == m && f == g
    {
      assert OldOrRecovered(v, tables, l, f) && OldOrRecovered(v, tables, m, g);
    }
  }

  lemma ReopenManifest(s: State, t: State, tables: Level, snapshot: Edit, e: Edit, next: Version)
    requires VersionOk(s.version) && NumbersDistinct(s.version) && RecordedOk(s)
    requires IsSnapshotRecord(snapshot, s.version)
    requires RecoveryEdit(s.version, tables, e, t.logNumber, t.lastSequence, next)
    requires forall i, j :: 0 <= i < j < |tables| ==> tables[i].number < tables[j].number
    requires forall i :: 0 <= i < |tables| ==> FirstFile(s) <= tables[i].number
    requires t.version == next && t.manifest == [snapshot, e] && t.history == [s.version, next]
    ensures ManifestOk(t)
  {
    assert t.manifest[1..] == [e];
    TablesDistinct(tables);
    forall l: nat, f, g | AddsFile(snapshot, l, f) && AddsFile(e, l, g)
      ensures f.number != g.number
    {
      assert f in s.version[l];
    }
    TwoRecords(snapshot, e);
  }

  lemma TwoRecords(a: Edit, b: Edit)
    requires forall l, f, g :: AddsFile(a, l, f) && AddsFile(a, l, g) ==> f.number == g.number ==> f == g
    requires forall l, f, g :: AddsFile(b, l, f) && AddsFile(b, l, g) ==> f.number == g.number ==> f == g
    requires forall l, f, g :: AddsFile(a, l, f) && AddsFile(b, l, g) ==> f.number != g.number
    ensures NeverAddedTwice([a, b])
  {
  }

  lemma ReopenRecorded(s: State, t: State, snapshot: Edit, e: Edit, next: Version)
    requires t.manifest == [snapshot, e] && t.version == next && |next| == NUM_LEVELS
    requires e.logNumber == Some(t.logNumber) && e.prevLogNumber == Some(0)
    requires e.nextFile == Some(t.nextFile) && e.lastSequence == Some(t.lastSequence) && t.flushed == t.lastSequence
    requires NumbersInUse(next, t.nextFile, t.pending)
    ensures RecordedOk(t)
  {
    assert t.manifest[1] == e;
  }

  lemma ReopenLogs(s: State, t: State, order: seq<nat>, newLog: nat)
    requires LogsOk(s) && (forall n :: n in s.logs ==> n <= s.logNumber || n in order)
    requires (forall n :: n in order ==> n < newLog) && newLog > s.logNumber
    requires t.groups == s.groups && t.logs == s.logs[newLog := []] && t.logFile == t.logNumber == newLog
    requires t.nextFile == newLog + 1 && t.imm.None? && t.flushed == t.memStart == |Writes(s)|
    ensures LogsOk(t)
  {
    assert Flatten(t.logs[newLog]) == Writes(t)[t.memStart..];
  }
}
