/** The whole store as a state machine: writers, memtable switches, flushes,
    compactions that run while flushes land, trivial moves, log deletion, and
    crash followed by reopen (db/db_impl.cc).

    One step is what one thread does while it holds the mutex, or one memtable
    insertion of the writer that leads the queue. */
module Store {
  import opened Wrappers
  import opened Keys
  import opened Files
  import opened VersionSteps
  import opened History
  import opened Builder
  import opened Manifest
  import Picking
  import Drop
  import MemTable

  type Group = seq<Entry>

  /** A compaction in progress: its inputs, their key range, the smallest
      snapshot, and the levels its base-level test looks at. */
  datatype Running = Running(c: Picking.Compaction, lo: Key, hi: Key, snapshot: nat, deeper: seq<Level>)

  datatype State = State(
    groups: seq<Group>,          // every group whose log record is complete
    published: nat,              // how many of them readers may see
    flushed: nat,                // writes 1..flushed are in table files
    memStart: nat,               // writes flushed+1..memStart are in imm
    inserted: nat,               // writes memStart+1..inserted are in mem
    lastSequence: nat,
    mem: seq<Entry>,
    imm: Option<seq<Entry>>,
    version: Version,
    running: Option<Running>,
    nextFile: nat,
    pending: set<nat>,           // pending_outputs_
    logFile: nat,                // logfile_number_
    logNumber: nat,              // logs before this one are obsolete
    logs: map<nat, seq<Group>>,  // complete records of each log file
    manifest: seq<Edit>,
    history: seq<Version>)       // the versions the manifest went through

  function Writes(s: State): seq<Entry>
  {
    Flatten(s.groups)
  }

  /** The writes a reader sees: whole groups only. */
  function Visible(s: State): seq<Entry>
    requires s.published <= |s.groups|
  {
    Flatten(s.groups[..s.published])
  }

  // ----- invariants -----

  ghost predicate WritesOk(s: State)
  {
    && Numbered(Writes(s)) && |Writes(s)| < MAX_SEQUENCE
    && s.flushed <= s.memStart <= s.lastSequence <= s.inserted <= |Writes(s)|
    && s.published <= |s.groups| <= s.published + 1
    && s.lastSequence == |Visible(s)|
  }

  ghost predicate TablesOk(s: State)
  {
    && Holds(s.mem, Writes(s), s.memStart, s.inserted)
    && (s.imm.Some? ==> Holds(s.imm.value, Writes(s), s.flushed, s.memStart))
    && (s.imm.None? ==> s.flushed == s.memStart)
    && VersionOk(s.version) && Represents(s.version, Writes(s), s.flushed)
  }

  /** Some manifest record adds a file numbered `n` at level `l`. */
  ghost predicate AddedAt(manifest: seq<Edit>, l: nat, n: nat)
  {
    exists i :: 0 <= i < |manifest| && AddsNumber(manifest[i], l, n)
  }

  lemma AddedAtAppend(manifest: seq<Edit>, e: Edit, l: nat, n: nat)
    ensures AddedAt(manifest + [e], l, n) <==> AddedAt(manifest, l, n) || AddsNumber(e, l, n)
  {
    if AddedAt(manifest, l, n) {
      var i :| 0 <= i < |manifest| && AddsNumber(manifest[i], l, n);
      assert (manifest + [e])[i] == manifest[i];
    }
    assert (manifest + [e])[|manifest|] == e;
  }

  ghost predicate NumbersInUse(v: Version, nextFile: nat, pending: set<nat>)
  {
    && |v| == NUM_LEVELS && (forall n :: n in pending ==> n < nextFile)
    && (forall l, f :: 0 <= l < NUM_LEVELS && f in v[l] ==> f.number < nextFile && f.number !in pending)
  }

  ghost predicate NumbersDistinct(v: Version)
  {
    |v| == NUM_LEVELS && forall l, m, f, g :: 0 <= l < NUM_LEVELS && 0 <= m < NUM_LEVELS && f in v[l] && g in v[m] ==>
      f.number == g.number ==> l == m && f == g
  }

  ghost predicate NumbersRecorded(manifest: seq<Edit>, nextFile: nat, pending: set<nat>)
  {
    forall l: nat, n: nat :: AddedAt(manifest, l, n) ==> n < nextFile && n !in pending
  }

  /** A file never sits above a level it was once added at. */
  ghost predicate OnlySinks(manifest: seq<Edit>, v: Version)
  {
    |v| == NUM_LEVELS && forall l: nat, m: nat, f :: m < NUM_LEVELS && f in v[m] && AddedAt(manifest, l, f.number) ==>
      l <= m
  }

  ghost predicate NumbersOk(s: State)
  {
    && NumbersInUse(s.version, s.nextFile, s.pending) && NumbersDistinct(s.version)
    && NumbersRecorded(s.manifest, s.nextFile, s.pending) && OnlySinks(s.manifest, s.version)
  }

  ghost predicate ManifestOk(s: State)
  {
    && s.manifest != [] && (forall i :: 0 <= i < |s.manifest| ==> EditOk(s.manifest[i]))
    && NeverAddedTwice(s.manifest)
    && IsHistory(s.history, s.manifest[1..]) && IsSnapshot(s.manifest[0], s.history[0])
    && (forall i :: 0 <= i < |s.history| ==> |s.history[i]| == NUM_LEVELS)
    && (forall l :: 0 <= l < NUM_LEVELS ==> SortedBySmallest(s.history[0][l]))
    && s.version == s.history[|s.history| - 1]
  }

  ghost predicate RecordedOk(s: State)
  {
    && |s.version| == NUM_LEVELS
    && LastSet(s.manifest, LogNumberOf) == Some(s.logNumber)
    && LastSet(s.manifest, PrevLogNumberOf) in {None, Some(0)}
    && (match LastSet(s.manifest, NextFileOf)
        case None => false
        case Some(n) => n <= s.nextFile && forall l, f :: 0 <= l < NUM_LEVELS && f in s.version[l] ==> f.number < n)
    && (match LastSet(s.manifest, LastSequenceOf)
        case None => false
        case Some(n) => s.flushed <= n <= s.lastSequence)
  }

  ghost predicate LogsOk(s: State)
  {
    && s.logNumber in s.logs && s.logFile in s.logs && 0 !in s.logs
    && s.logNumber <= s.logFile < s.nextFile
    && (forall n :: n in s.logs ==> n <= s.logNumber || n == s.logFile)
    && s.flushed <= s.memStart <= |Writes(s)|
    && (s.imm.None? ==> s.logNumber == s.logFile)
    && (s.imm.Some? ==> s.logNumber < s.logFile && Flatten(s.logs[s.logNumber]) == Writes(s)[s.flushed..s.memStart])
    && Flatten(s.logs[s.logFile]) == Writes(s)[s.memStart..]
  }

  ghost predicate RunningOk(s: State)
  {
    s.running.Some? ==> var r := s.running.value;
      && Replaceable(s.version, r.c, r.lo, r.hi)
      && DeeperKnown(s.version, r.c, r.deeper, r.lo, r.hi)
      && (forall l :: 0 <= l < |r.deeper| ==> FilesOk(r.deeper[l]) && DisjointSorted(r.deeper[l]))
      && (forall e :: InputEntry(r.c, e) ==> e.seqno <= r.snapshot) && r.snapshot <= s.lastSequence
  }

  ghost predicate Inv(s: State)
  {
    WritesOk(s) && TablesOk(s) && NumbersOk(s) && ManifestOk(s) && RecordedOk(s) && LogsOk(s) && RunningOk(s)
  }

  // ----- writing -----

  /** The operations of a batch, numbered from `first`. */
  function Numbering(ops: seq<(Key, Op)>, first: nat): (g: Group)
    ensures |g| == |ops|
    ensures forall i :: 0 <= i < |g| ==> g[i] == Entry(ops[i].0, first + i, ops[i].1)
  {
    seq(|ops|, i requires 0 <= i < |ops| => Entry(ops[i].0, first + i, ops[i].1))
  }

  ghost predicate Idle(s: State)
  {
    s.published == |s.groups|
  }

  /** The leader's log append completes. */
  function LogGroup(s: State, ops: seq<(Key, Op)>): State
    requires s.logFile in s.logs
  {
    var g := Numbering(ops, s.lastSequence + 1);
    s.(groups := s.groups + [g], logs := s.logs[s.logFile := s.logs[s.logFile] + [g]])
  }

  /** One entry of the logged group goes into the memtable. */
  function InsertOne(s: State): State
    requires s.inserted < |Writes(s)|
  {
    s.(mem := MemTable.Add(s.mem, Writes(s)[s.inserted]), inserted := s.inserted + 1)
  }

  /** SetLastSequence: the group becomes visible. */
  function Publish(s: State): State
  {
    s.(published := |s.groups|, lastSequence := |Writes(s)|)
  }

  lemma GroupNumbers(s: State, ops: seq<(Key, Op)>)
    requires WritesOk(s) && Idle(s) && s.logFile in s.logs
    ensures Writes(LogGroup(s, ops)) == Writes(s) + Numbering(ops, s.lastSequence + 1)
    ensures Numbered(Writes(LogGroup(s, ops))) && |Writes(s)| == s.lastSequence
  {
    FlattenAppend(s.groups, Numbering(ops, s.lastSequence + 1));
    assert s.groups[..s.published] == s.groups;
  }

  /** What holds of the first writes holds however many more are made. */
  lemma LongerHistory(w: seq<Entry>, longer: seq<Entry>, from: nat, n: nat)
    requires n <= |w| <= |longer| && longer[..|w|] == w
    ensures forall e :: IsWrite(longer, n, e) <==> IsWrite(w, n, e)
    ensures forall e :: LastPut(longer, n, e) <==> LastPut(w, n, e)
  {
    assert forall i :: 0 <= i < n ==> longer[i] == longer[..|w|][i];
  }

  lemma LogGroupInv(s: State, ops: seq<(Key, Op)>)
    requires Inv(s) && Idle(s) && |Writes(s)| + |ops| < MAX_SEQUENCE
    ensures Inv(LogGroup(s, ops))
  {
    var t := LogGroup(s, ops);
    GroupNumbers(s, ops);
    assert t.groups[..s.published] == s.groups == s.groups[..s.published];
    MoreWritesKeepTables(s, t);
    LogGroupLogs(s, ops);
    SameFilesInv(s, t);
  }

  lemma MoreWritesKeepTables(s: State, t: State)
    requires WritesOk(s) && TablesOk(s) && |Writes(s)| <= |Writes(t)| && Writes(t)[..|Writes(s)|] == Writes(s)
    requires t.mem == s.mem && t.imm == s.imm && t.version == s.version
    requires t.flushed == s.flushed && t.memStart == s.memStart && t.inserted == s.inserted
    ensures TablesOk(t)
  {
    LongerHistory(Writes(s), Writes(t), s.memStart, s.inserted);
    LongerHistory(Writes(s), Writes(t), s.flushed, s.memStart);
    LongerHistory(Writes(s), Writes(t), 0, s.flushed);
  }

  lemma LogGroupLogs(s: State, ops: seq<(Key, Op)>)
    requires WritesOk(s) && LogsOk(s) && Idle(s)
    ensures LogsOk(LogGroup(s, ops))
  {
    var t := LogGroup(s, ops);
    var g := Numbering(ops, s.lastSequence + 1);
    GroupNumbers(s, ops);
    FlattenAppend(s.logs[s.logFile], g);
    assert Writes(t)[s.memStart..] == Writes(s)[s.memStart..] + g;
    assert Writes(t)[s.flushed..s.memStart] == Writes(s)[s.flushed..s.memStart];
  }

  /** Steps that leave the version, the manifest and the file numbers alone. */
  lemma SameFilesInv(s: State, t: State)
    requires NumbersOk(s) && ManifestOk(s) && RecordedOk(s) && RunningOk(s)
    requires t.version == s.version && t.manifest == s.manifest && t.history == s.history && t.running == s.running
    requires t.pending == s.pending && t.nextFile >= s.nextFile && t.logNumber == s.logNumber
    requires t.flushed == s.flushed && t.lastSequence >= s.lastSequence
    ensures NumbersOk(t) && ManifestOk(t) && RecordedOk(t) && RunningOk(t)
  {
  }

  lemma InsertOneInv(s: State)
    requires Inv(s) && s.inserted < |Writes(s)|
    ensures Inv(InsertOne(s))
  {
    InsertTables(s);
    SameFilesInv(s, InsertOne(s));
  }

  lemma InsertTables(s: State)
    requires WritesOk(s) && TablesOk(s) && s.inserted < |Writes(s)|
    ensures TablesOk(InsertOne(s)) && WritesOk(InsertOne(s))
  {
    var w := Writes(s);
    var next := w[s.inserted];
    MemTable.AddKeepsOrder(s.mem, next);
    forall e
      ensures e in MemTable.Add(s.mem, next) <==> s.memStart < e.seqno && IsWrite(w, s.inserted + 1, e)
    {
    }
    assert Writes(InsertOne(s)) == w && Visible(InsertOne(s)) == Visible(s);
  }

  lemma PublishInv(s: State)
    requires Inv(s) && s.inserted == |Writes(s)|
    ensures Inv(Publish(s)) && Idle(Publish(s)) && Visible(Publish(s)) == Writes(s)
  {
    var t := Publish(s);
    assert t.groups[..t.published] == s.groups;
    SameFilesInv(s, t);
  }

  /** MakeRoomForWrite starts a new log and a new memtable. */
  function SwitchMem(s: State): State
  {
    s.(imm := Some(s.mem), mem := [], memStart := s.inserted, logFile := s.nextFile,
       logs := s.logs[s.nextFile := []], nextFile := s.nextFile + 1)
  }

  lemma SwitchMemInv(s: State)
    requires Inv(s) && Idle(s) && s.imm.None?
    ensures Inv(SwitchMem(s))
  {
    SwitchTables(s);
    SwitchLogs(s);
    SameFilesInv(s, SwitchMem(s));
  }

  lemma SwitchTables(s: State)
    requires WritesOk(s) && TablesOk(s) && Idle(s) && s.imm.None?
    ensures TablesOk(SwitchMem(s)) && WritesOk(SwitchMem(s)) && s.inserted == |Writes(s)| == s.lastSequence
  {
    assert s.groups[..s.published] == s.groups;
    assert Writes(SwitchMem(s)) == Writes(s) && Visible(SwitchMem(s)) == Visible(s);
  }

  lemma SwitchLogs(s: State)
    requires LogsOk(s) && s.imm.None? && s.flushed == s.memStart && s.inserted == |Writes(s)|
    ensures LogsOk(SwitchMem(s))
  {
    var t := SwitchMem(s);
    assert Writes(t) == Writes(s);
    assert Writes(s)[s.flushed..s.inserted] == Writes(s)[s.memStart..];
    assert Flatten(t.logs[t.logFile]) == Writes(s)[s.inserted..];
  }

  /** NewFileNumber for a compaction output. */
  function Alloc(s: State): State
  {
    s.(pending := s.pending + {s.nextFile}, nextFile := s.nextFile + 1)
  }

  lemma AllocInv(s: State)
    requires Inv(s)
    ensures Inv(Alloc(s))
  {
    AllocKeepsRecords(s, Alloc(s));
    assert Writes(Alloc(s)) == Writes(s) && Visible(Alloc(s)) == Visible(s);
  }

  lemma AllocKeepsRecords(s: State, t: State)
    requires ManifestOk(s) && RecordedOk(s) && RunningOk(s) && NumbersOk(s) && t == Alloc(s)
    ensures ManifestOk(t) && RecordedOk(t) && RunningOk(t) && NumbersOk(t)
  {
  }

  // ----- installing versions -----

  /** LogAndApply: append the edit to the manifest and make its version current. */
  function Install(s: State, e: Edit, next: Version): State
    requires e.logNumber.Some?
  {
    s.(version := next, manifest := s.manifest + [e], history := s.history + [next], logNumber := e.logNumber.value)
  }

  /** The fields LogAndApply fills in. */
  ghost predicate Stamped(s: State, e: Edit, logNumber: nat, nextFile: nat)
  {
    && e.logNumber == Some(logNumber) && e.prevLogNumber == Some(0) && e.comparator.None?
    && e.nextFile == Some(nextFile) && e.lastSequence == Some(s.lastSequence)
  }

  lemma InstallManifest(s: State, e: Edit, next: Version)
    requires ManifestOk(s) && EditOk(e) && e.logNumber.Some? && AfterEdit(s.version, e, next)
    requires forall l, f, g :: AddsFile(e, l, f) && AddsFile(e, l, g) ==> f.number == g.number ==> f == g
    requires forall i, l, f, g :: 0 <= i < |s.manifest| && AddsFile(s.manifest[i], l, f) && AddsFile(e, l, g) ==>
      f.number != g.number
    ensures ManifestOk(Install(s, e, next))
  {
    var t := Install(s, e, next);
    assert t.manifest[1..] == s.manifest[1..] + [e];
    forall i | 0 <= i < |t.manifest[1..]|
      ensures AfterEdit(t.history[i], t.manifest[1..][i], t.history[i + 1])
    {
      if i < |s.manifest[1..]| {
        assert AfterEdit(s.history[i], s.manifest[1..][i], s.history[i + 1]);
      }
    }
  }

  lemma InstallRecorded(s: State, e: Edit, next: Version, t: State)
    requires RecordedOk(s) && Stamped(s, e, t.logNumber, t.nextFile) && |next| == NUM_LEVELS
    requires t.manifest == s.manifest + [e] && t.version == next && t.lastSequence == s.lastSequence
    requires t.flushed <= t.lastSequence
    requires forall l, f :: 0 <= l < NUM_LEVELS && f in next[l] ==> f.number < t.nextFile
    ensures RecordedOk(t)
  {
    assert t.manifest[..|t.manifest| - 1] == s.manifest;
  }

  /** Numbers the edit adds are new, and no two added files share one. */
  ghost predicate AddsFresh(s: State, e: Edit, numbers: set<nat>)
  {
    && (forall l, f :: AddsFile(e, l, f) ==> f.number in numbers)
    && (forall n :: n in numbers ==> n in s.pending || n >= s.nextFile)
    && (forall l, m, f, g :: AddsFile(e, l, f) && AddsFile(e, m, g) ==> f.number == g.number ==> l == m && f == g)
  }

  lemma FreshNumbers(s: State, e: Edit, next: Version, numbers: set<nat>, t: State)
    requires NumbersOk(s) && EditOk(e) && AfterEdit(s.version, e, next) && AddsFresh(s, e, numbers)
    requires t.version == next && t.manifest == s.manifest + [e] && t.nextFile >= s.nextFile
    requires t.pending == s.pending - numbers && forall n :: n in numbers ==> n < t.nextFile
    ensures NumbersOk(t)
    ensures forall i, l, f, g :: 0 <= i < |s.manifest| && AddsFile(s.manifest[i], l, f) && AddsFile(e, l, g) ==>
      f.number != g.number
  {
    forall l, f | 0 <= l < NUM_LEVELS && f in next[l]
      ensures f in s.version[l] || AddsFile(e, l, f)
    {
      assert Keeps(s.version, e, l, f);
    }
    forall l, n
      ensures AddedAt(t.manifest, l, n) <==> AddedAt(s.manifest, l, n) || AddsNumber(e, l, n)
    {
      AddedAtAppend(s.manifest, e, l, n);
    }
    forall i, l, f, g | 0 <= i < |s.manifest| && AddsFile(s.manifest[i], l, f) && AddsFile(e, l, g)
      ensures f.number != g.number
    {
      assert AddsNumber(s.manifest[i], l, f.number);
      assert AddedAt(s.manifest, l, f.number);
    }
    FreshSinks(s, e, next, numbers, t.manifest);
  }

  lemma FreshSinks(s: State, e: Edit, next: Version, numbers: set<nat>, manifest: seq<Edit>)
    requires NumbersOk(s) && AddsFresh(s, e, numbers) && |next| == NUM_LEVELS
    requires forall l, f :: 0 <= l < NUM_LEVELS && f in next[l] ==> f in s.version[l] || AddsFile(e, l, f)
    requires forall l, n :: AddedAt(manifest, l, n) <==> AddedAt(s.manifest, l, n) || AddsNumber(e, l, n)
    ensures OnlySinks(manifest, next) && NumbersDistinct(next)
  {
  }

  // ----- flush -----

  /** CompactMemTable: the immutable memtable becomes a table file, unless it is
      empty, and the logs before the current one become obsolete. */
  ghost predicate FlushStep(s: State, t: State, level: nat, f: Option<File>, e: Edit, next: Version)
  {
    && s.imm.Some? && level <= MAX_MEM_COMPACT_LEVEL
    && (f.None? <==> s.imm.value == [])
    && (f.Some? ==> FileOk(f.value) && f.value.entries == s.imm.value && f.value.number == s.nextFile)
    && (f.Some? ==> Placeable(s.version, level, f.value))
    && EditOk(e) && Stamped(s, e, s.logFile, s.nextFile + 1) && e.deleted == {}
    && (forall l, g :: AddsFile(e, l, g) <==> l == level && f == Some(g))
    && AfterEdit(s.version, e, next)
    && t == Install(s, e, next).(imm := None, flushed := s.memStart, nextFile := s.nextFile + 1)
  }

  lemma FlushInv(s: State, t: State, level: nat, f: Option<File>, e: Edit, next: Version)
    requires Inv(s) && FlushStep(s, t, level, f, e, next)
    ensures Inv(t) && Writes(t) == Writes(s) && Visible(t) == Visible(s)
  {
    FlushNumbers(s, t, level, f, e, next);
    if f.Some? {
      FlushFile(s, t, level, f.value, e, next);
    } else {
      FlushNothing(s, t, e, next);
    }
  }

  lemma FlushNumbers(s: State, t: State, level: nat, f: Option<File>, e: Edit, next: Version)
    requires NumbersOk(s) && ManifestOk(s) && RecordedOk(s) && LogsOk(s) && WritesOk(s)
    requires FlushStep(s, t, level, f, e, next)
    ensures NumbersOk(t) && ManifestOk(t) && RecordedOk(t) && LogsOk(t) && WritesOk(t)
  {
    FlushManifest(s, t, level, f, e, next);
    FlushLogs(s, t, level, f, e, next);
    assert Writes(t) == Writes(s) && Visible(t) == Visible(s);
  }

  lemma FlushLogs(s: State, t: State, level: nat, f: Option<File>, e: Edit, next: Version)
    requires LogsOk(s) && FlushStep(s, t, level, f, e, next)
    ensures LogsOk(t)
  {
    hide AfterEdit;
    hide Placeable;
    hide FileOk;
    hide EditOk;
    assert Writes(t) == Writes(s);
  }

  lemma FlushManifest(s: State, t: State, level: nat, f: Option<File>, e: Edit, next: Version)
    requires NumbersOk(s) && ManifestOk(s) && RecordedOk(s) && LogsOk(s) && WritesOk(s)
    requires FlushStep(s, t, level, f, e, next)
    ensures NumbersOk(t) && ManifestOk(t) && RecordedOk(t)
  {
    var numbers := if f.Some? then {s.nextFile} else {};
    assert s.nextFile !in s.pending;
    FreshNumbers(s, e, next, numbers, t);
    InstallManifest(s, e, next);
    InstallRecorded(s, e, next, t);
  }

  lemma FlushIsFileAdded(v: Version, level: nat, f: File, e: Edit, next: Version)
    requires AfterEdit(v, e, next) && e.deleted == {} && level < NUM_LEVELS
    requires forall l, g :: AddsFile(e, l, g) <==> l == level && g == f
    ensures FileAdded(v, level, f, next)
  {
    forall l, g | 0 <= l < NUM_LEVELS
      ensures g in next[l] <==> g in v[l] || (l == level && g == f)
    {
      assert g in next[l] <==> Keeps(v, e, l, g);
    }
  }

  lemma FlushFile(s: State, t: State, level: nat, f: File, e: Edit, next: Version)
    requires WritesOk(s) && TablesOk(s) && NumbersOk(s) && RunningOk(s)
    requires FlushStep(s, t, level, Some(f), e, next)
    ensures TablesOk(t) && RunningOk(t)
  {
    var w := Writes(s);
    assert Writes(t) == w;
    FlushIsFileAdded(s.version, level, f, e, next);
    forall l, g | 0 <= l < NUM_LEVELS && g in s.version[l]
      ensures NewerFile(f, g)
    {
      OlderInVersion(s.version, w, s.flushed, f, l, g);
    }
    FlushKeepsReads(s.version, level, f, next, w, s.flushed, s.memStart);
    RepresentsDistinct(next, w, s.memStart);
    FlushKeepsLevels(s.version, level, f, next);
    if s.running.Some? {
      FlushAroundRunning(s.version, s.running.value, level, f, next);
    }
  }

  lemma OlderInVersion(v: Version, w: seq<Entry>, flushed: nat, f: File, l: nat, g: File)
    requires Represents(v, w, flushed) && l < |v| && g in v[l]
    requires forall x :: x in f.entries ==> x.seqno > flushed
    ensures NewerFile(f, g)
  {
    forall y | y in g.entries
      ensures y.seqno <= flushed
    {
      assert InVersion(v, y);
    }
  }

  /** A flush in the middle of a compaction leaves the compaction's ground intact. */
  lemma FlushAroundRunning(v: Version, r: Running, level: nat, f: File, next: Version)
    requires Replaceable(v, r.c, r.lo, r.hi) && DeeperKnown(v, r.c, r.deeper, r.lo, r.hi)
    requires FileAdded(v, level, f, next) && FileOk(f) && AllOlder(v, f) && Placeable(v, level, f)
    ensures Replaceable(next, r.c, r.lo, r.hi) && DeeperKnown(next, r.c, r.deeper, r.lo, r.hi)
  {
    FlushKeepsReplaceable(v, r.c, r.lo, r.hi, level, f, next);
  }

  lemma FlushNothing(s: State, t: State, e: Edit, next: Version)
    requires WritesOk(s) && TablesOk(s) && RunningOk(s)
    requires exists level :: FlushStep(s, t, level, None, e, next)
    ensures TablesOk(t) && RunningOk(t)
  {
    EmptyTable(Writes(s), s.flushed, s.memStart);
    SameFilesSameVersion(s.version, e, next);
  }

  /** An empty table holds no writes. */
  lemma EmptyTable(w: seq<Entry>, from: nat, n: nat)
    requires Holds([], w, from, n) && from <= n <= |w| && Numbered(w)
    ensures from == n
  {
    var at := (i: nat) => if i < |w| then w[i] else Entry(0.0, 0, Delete);
    assert from == n || IsWrite(w, n, at(from));
  }

  lemma SameFilesSameVersion(v: Version, e: Edit, next: Version)
    requires AfterEdit(v, e, next) && e.deleted == {} && (forall l, g :: !AddsFile(e, l, g))
    requires forall l :: 0 <= l < NUM_LEVELS ==> SortedBySmallest(v[l])
    ensures next == v
  {
    forall l | 0 <= l < NUM_LEVELS
      ensures next[l] == v[l]
    {
      forall g
        ensures g in next[l] <==> g in v[l]
      {
        assert g in next[l] <==> Keeps(v, e, l, g);
      }
      SortedLevelsEqual(next[l], v[l]);
    }
  }

  // ----- compaction -----

  /** PickCompaction chose `c`; its work runs from here without the mutex. */
  ghost predicate StartStep(s: State, t: State, c: Picking.Compaction, lo: Key, hi: Key)
  {
    && s.running.None? && |s.version| == NUM_LEVELS && c.level < NUM_LEVELS - 1
    && Picking.PickedOk(s.version[c.level], s.version[c.level + 1], c, lo, hi)
    && t == s.(running := Some(Running(c, lo, hi, s.lastSequence, s.version[c.level + 2..])))
  }

  lemma StartInv(s: State, t: State, c: Picking.Compaction, lo: Key, hi: Key)
    requires Inv(s) && StartStep(s, t, c, lo, hi)
    ensures Inv(t) && Writes(t) == Writes(s) && Visible(t) == Visible(s)
  {
    StartTables(s, t);
    StartRunning(s, t, c, lo, hi);
  }

  lemma StartRunning(s: State, t: State, c: Picking.Compaction, lo: Key, hi: Key)
    requires VersionOk(s.version) && Represents(s.version, Writes(s), s.flushed) && s.flushed <= s.lastSequence
    requires StartStep(s, t, c, lo, hi)
    ensures RunningOk(t)
  {
    PickedIsReplaceable(s.version, c, lo, hi);
    forall e | InputEntry(c, e)
      ensures e.seqno <= s.lastSequence
    {
      var x :| x in c.Inputs() && e in x.entries;
      assert x in s.version[c.level] || x in s.version[c.level + 1];
      assert InVersion(s.version, e);
    }
  }

  /** Steps that touch only the record of the running compaction. */
  lemma StartTables(s: State, t: State)
    requires Inv(s) && t == s.(running := t.running)
    ensures WritesOk(t) && TablesOk(t) && NumbersOk(t) && ManifestOk(t) && RecordedOk(t) && LogsOk(t)
    ensures Writes(t) == Writes(s) && Visible(t) == Visible(s)
  {
  }

  /** The trivial move: the one input file goes one level down as it is. */
  ghost predicate MoveStep(s: State, t: State, c: Picking.Compaction, lo: Key, hi: Key, f: File, e: Edit, next: Version)
  {
    && s.running.None? && |s.version| == NUM_LEVELS && c.level < NUM_LEVELS - 1
    && Picking.PickedOk(s.version[c.level], s.version[c.level + 1], c, lo, hi)
    && c.inputs0 == [f] && c.inputs1 == []
    && EditOk(e) && Stamped(s, e, s.logNumber, s.nextFile) && e.deleted == {(c.level, f.number)}
    && (forall l, g :: AddsFile(e, l, g) <==> l == c.level + 1 && g == f)
    && AfterEdit(s.version, e, next)
    && t == Install(s, e, next)
  }

  lemma MoveInv(s: State, t: State, c: Picking.Compaction, lo: Key, hi: Key, f: File, e: Edit, next: Version)
    requires Inv(s) && MoveStep(s, t, c, lo, hi, f, e, next)
    ensures Inv(t) && Writes(t) == Writes(s) && Visible(t) == Visible(s)
  {
    assert Writes(t) == Writes(s) && Visible(t) == Visible(s);
    MoveNumbers(s, t, c, f, e, next);
    MoveIsReplacement(s.version, c, f, e, next);
    PickedIsReplaceable(s.version, c, lo, hi);
    MoveOutputs(s.version, c, f);
    ReplaceKeepsLevels(s.version, c, lo, hi, [f], next);
    MoveKeepsReads(s.version, c, f, next, Writes(s), s.flushed);
  }

  lemma MoveOutputs(v: Version, c: Picking.Compaction, f: File)
    requires c.inputs0 == [f] && c.inputs1 == [] && FileOk(f)
    ensures OutputsOk(c, [f])
  {
    assert f in c.Inputs();
    forall g, y | g in [f] && y in g.entries
      ensures InputEntry(c, y)
    {
    }
  }

  lemma MoveIsReplacement(v: Version, c: Picking.Compaction, f: File, e: Edit, next: Version)
    requires AfterEdit(v, e, next) && c.level < NUM_LEVELS - 1 && f in v[c.level]
    requires c.inputs0 == [f] && c.inputs1 == [] && e.deleted == {(c.level, f.number)}
    requires forall l, g :: AddsFile(e, l, g) <==> l == c.level + 1 && g == f
    requires forall g :: g in v[c.level] && g.number == f.number ==> g == f
    ensures FilesReplaced(v, c, [f], next)
  {
    forall l, g | 0 <= l < NUM_LEVELS
      ensures g in next[l] <==> Stays(v, c, [f], l, g)
    {
      MoveKeepsIsStays(v, c, f, e, l, g);
      assert g in next[l] <==> Keeps(v, e, l, g);
    }
  }

  lemma MoveKeepsIsStays(v: Version, c: Picking.Compaction, f: File, e: Edit, l: nat, g: File)
    requires |v| == NUM_LEVELS && c.level < NUM_LEVELS - 1 && f in v[c.level] && l < NUM_LEVELS
    requires c.inputs0 == [f] && c.inputs1 == [] && e.deleted == {(c.level, f.number)}
    requires forall m, h :: AddsFile(e, m, h) <==> m == c.level + 1 && h == f
    requires forall h :: h in v[c.level] && h.number == f.number ==> h == f
    ensures Keeps(v, e, l, g) <==> Stays(v, c, [f], l, g)
  {
    assert !AddsNumber(e, c.level, f.number);
  }

  lemma MoveNumbers(s: State, t: State, c: Picking.Compaction, f: File, e: Edit, next: Version)
    requires NumbersOk(s) && ManifestOk(s) && RecordedOk(s) && WritesOk(s) && AfterEdit(s.version, e, next)
    requires c.level < NUM_LEVELS - 1 && f in s.version[c.level] && e.deleted == {(c.level, f.number)}
    requires EditOk(e) && Stamped(s, e, s.logNumber, s.nextFile)
    requires forall l, g :: AddsFile(e, l, g) <==> l == c.level + 1 && g == f
    requires t == Install(s, e, next)
    ensures NumbersOk(t) && ManifestOk(t) && RecordedOk(t)
  {
    MovedFiles(s.version, c.level, f, e, next);
    MovedNumbers(s, t, c.level, f, e, next);
    forall i, l, g, h | 0 <= i < |s.manifest| && AddsFile(s.manifest[i], l, g) && AddsFile(e, l, h)
      ensures g.number != h.number
    {
      assert AddsNumber(s.manifest[i], l, g.number);
      assert AddedAt(s.manifest, l, g.number);
    }
    InstallManifest(s, e, next);
    InstallRecorded(s, e, next, t);
  }

  /** After the move, `f` is at the next level and nowhere else. */
  ghost predicate Moved(v: Version, level: nat, f: File, next: Version)
  {
    && |v| == |next| == NUM_LEVELS && level < NUM_LEVELS - 1 && f in v[level]
    && forall l, g :: 0 <= l < NUM_LEVELS && g in next[l] ==>
      (g in v[l] && g.number != f.number) || (l == level + 1 && g == f)
  }

  lemma MovedFiles(v: Version, level: nat, f: File, e: Edit, next: Version)
    requires AfterEdit(v, e, next) && level < NUM_LEVELS - 1 && e.deleted == {(level, f.number)} && f in v[level]
    requires forall l, g :: AddsFile(e, l, g) <==> l == level + 1 && g == f
    requires NumbersDistinct(v)
    ensures Moved(v, level, f, next)
  {
    forall l, g | 0 <= l < NUM_LEVELS && g in next[l]
      ensures (g in v[l] && g.number != f.number) || (l == level + 1 && g == f)
    {
      assert Keeps(v, e, l, g);
      assert !AddsNumber(e, level, f.number);
    }
  }

  lemma MovedNumbers(s: State, t: State, level: nat, f: File, e: Edit, next: Version)
    requires NumbersOk(s) && Moved(s.version, level, f, next)
    requires forall l, g :: AddsFile(e, l, g) <==> l == level + 1 && g == f
    requires t.version == next && t.manifest == s.manifest + [e] && t.pending == s.pending && t.nextFile == s.nextFile
    ensures NumbersOk(t)
  {
    forall l, n
      ensures AddedAt(t.manifest, l, n) <==> AddedAt(s.manifest, l, n) || (l == level + 1 && n == f.number)
    {
      AddedAtAppend(s.manifest, e, l, n);
      assert AddsFile(e, level + 1, f);
    }
    MovedSinks(s.version, level, f, next, s.manifest, t.manifest);
  }

  lemma MovedSinks(v: Version, level: nat, f: File, next: Version, before: seq<Edit>, after: seq<Edit>)
    requires OnlySinks(before, v) && NumbersDistinct(v) && Moved(v, level, f, next)
    requires forall l, n :: AddedAt(after, l, n) <==> AddedAt(before, l, n) || (l == level + 1 && n == f.number)
    ensures OnlySinks(after, next) && NumbersDistinct(next)
  {
  }

  /** The contents of some files, file by file. */
  function ContentsOf(files: Level): seq<seq<Entry>>
  {
    seq(|files|, i requires 0 <= i < |files| => files[i].entries)
  }

  ghost predicate NumbersIn(files: Level, numbers: set<nat>)
  {
    && (forall f :: f in files ==> f.number in numbers)
    && (forall i, j :: 0 <= i < j < |files| ==> files[i].number != files[j].number)
  }

  /** InstallCompactionResults: the outputs, the survivors of the drop loop cut
      into files anyhow, replace the inputs. */
  ghost predicate FinishStep(s: State, t: State, merged: seq<Entry>, outputs: Level, numbers: set<nat>, e: Edit,
                             next: Version)
  {
    && s.running.Some? && var r := s.running.value;
    && MergedInput(r.c, merged)
    && Flatten(ContentsOf(outputs)) == Drop.Survivors(merged, |merged|, r.snapshot, r.deeper)
    && FilesOk(outputs) && NumbersIn(outputs, numbers) && numbers <= s.pending
    && EditOk(e) && Stamped(s, e, s.logNumber, s.nextFile)
    && (forall d :: d in e.deleted <==> DeletesInput(r.c, d))
    && (forall l, g :: AddsFile(e, l, g) <==> l == r.c.level + 1 && g in outputs)
    && AfterEdit(s.version, e, next)
    && t == Install(s, e, next).(running := None, pending := s.pending - numbers)
  }

  ghost predicate DeletesInput(c: Picking.Compaction, d: (nat, nat))
  {
    || (d.0 == c.level && exists f :: f in c.inputs0 && f.number == d.1)
    || (d.0 == c.level + 1 && exists f :: f in c.inputs1 && f.number == d.1)
  }

  lemma FinishInv(s: State, t: State, merged: seq<Entry>, outputs: Level, numbers: set<nat>, e: Edit, next: Version)
    requires Inv(s) && FinishStep(s, t, merged, outputs, numbers, e, next)
    ensures Inv(t) && Writes(t) == Writes(s) && Visible(t) == Visible(s)
  {
    assert Writes(t) == Writes(s) && Visible(t) == Visible(s);
    FinishNumbers(s, t, merged, outputs, numbers, e, next);
    FinishFiles(s, t, merged, outputs, numbers, e, next);
  }

  lemma FinishNumbers(s: State, t: State, merged: seq<Entry>, outputs: Level, numbers: set<nat>, e: Edit, next: Version)
    requires NumbersOk(s) && ManifestOk(s) && RecordedOk(s) && WritesOk(s)
    requires FinishStep(s, t, merged, outputs, numbers, e, next)
    ensures NumbersOk(t) && ManifestOk(t) && RecordedOk(t)
  {
    FreshNumbers(s, e, next, numbers, t);
    InstallManifest(s, e, next);
    InstallRecorded(s, e, next, t);
  }

  lemma FinishFiles(s: State, t: State, merged: seq<Entry>, outputs: Level, numbers: set<nat>, e: Edit, next: Version)
    requires TablesOk(s) && NumbersOk(s) && RunningOk(s) && WritesOk(s)
    requires FinishStep(s, t, merged, outputs, numbers, e, next)
    ensures TablesOk(t)
  {
    var r := s.running.value;
    FinishIsReplacement(s, r.c, outputs, numbers, e, next);
    OutputsFromSurvivors(r.c, merged, r.snapshot, r.deeper, outputs);
    ReplaceKeepsLevels(s.version, r.c, r.lo, r.hi, outputs, next);
    ReplaceKeepsReads(s.version, r.c, r.lo, r.hi, merged, r.snapshot, r.deeper, outputs, next, Writes(s), s.flushed);
    assert Writes(t) == Writes(s);
  }

  lemma FinishIsReplacement(s: State, c: Picking.Compaction, outputs: Level, numbers: set<nat>, e: Edit, next: Version)
    requires NumbersOk(s) && AfterEdit(s.version, e, next) && ReplacesInputs(s.version, c, outputs, e)
    requires NumbersIn(outputs, numbers) && numbers <= s.pending
    ensures FilesReplaced(s.version, c, outputs, next)
  {
    forall l, g | 0 <= l < NUM_LEVELS
      ensures g in next[l] <==> Stays(s.version, c, outputs, l, g)
    {
      KeepsIsStays(s, c, outputs, numbers, e, l, g);
      assert g in next[l] <==> Keeps(s.version, e, l, g);
    }
  }

  /** The edit deletes the inputs and adds the outputs. */
  ghost predicate ReplacesInputs(v: Version, c: Picking.Compaction, outputs: Level, e: Edit)
  {
    && |v| == NUM_LEVELS && c.level < NUM_LEVELS - 1
    && (forall f :: f in c.inputs0 ==> f in v[c.level])
    && (forall f :: f in c.inputs1 ==> f in v[c.level + 1])
    && (forall d :: d in e.deleted <==> DeletesInput(c, d))
    && (forall l, g :: AddsFile(e, l, g) <==> l == c.level + 1 && g in outputs)
  }

  lemma KeepsIsStays(s: State, c: Picking.Compaction, outputs: Level, numbers: set<nat>, e: Edit, l: nat, g: File)
    requires NumbersOk(s) && ReplacesInputs(s.version, c, outputs, e) && l < NUM_LEVELS
    requires NumbersIn(outputs, numbers) && numbers <= s.pending
    ensures Keeps(s.version, e, l, g) <==> Stays(s.version, c, outputs, l, g)
  {
    if g in s.version[l] {
      assert !AddsNumber(e, l, g.number);
      assert (l, g.number) in e.deleted <==> Consumed(c, l, g);
    }
    if l == c.level + 1 && g in outputs {
      assert AddsFile(e, l, g) && AddsNumber(e, l, g.number);
    }
  }

  /** With one entry per key left, the output files are apart whatever the cuts. */
  lemma OutputsFromSurvivors(c: Picking.Compaction, merged: seq<Entry>, snap: nat, deeper: seq<Level>, outputs: Level)
    requires MergedInput(c, merged) && FilesOk(outputs)
    requires forall e :: InputEntry(c, e) ==> e.seqno <= snap
    requires Flatten(ContentsOf(outputs)) == Drop.Survivors(merged, |merged|, snap, deeper)
    ensures OutputsOk(c, outputs)
    ensures forall e :: OutputEntry(outputs, e) <==> e in Drop.Survivors(merged, |merged|, snap, deeper)
  {
    var parts := ContentsOf(outputs);
    var kept := Drop.Survivors(merged, |merged|, snap, deeper);
    Drop.SurvivorsSorted(merged, |merged|, snap, deeper);
    forall e
      ensures OutputEntry(outputs, e) <==> e in kept
    {
      PartMember(outputs, e);
    }
    forall g, y | g in outputs && y in g.entries
      ensures InputEntry(c, y)
    {
      assert OutputEntry(outputs, y);
    }
    forall g, h | g in outputs && h in outputs && g != h
      ensures g.largest.user < h.smallest.user || h.largest.user < g.smallest.user
    {
      var i :| 0 <= i < |outputs| && outputs[i] == g;
      var j :| 0 <= j < |outputs| && outputs[j] == h;
      if i < j {
        PartsApart(outputs, kept, i, j);
      } else {
        PartsApart(outputs, kept, j, i);
      }
    }
  }

  lemma PartMember(files: Level, e: Entry)
    ensures OutputEntry(files, e) <==> e in Flatten(ContentsOf(files))
  {
    FlattenMember(ContentsOf(files), e);
    if OutputEntry(files, e) {
      var f :| f in files && e in f.entries;
      var i :| 0 <= i < |files| && files[i] == f;
      assert e in ContentsOf(files)[i];
    }
  }

  lemma PartsApart(outputs: Level, kept: seq<Entry>, i: nat, j: nat)
    requires FilesOk(outputs) && Flatten(ContentsOf(outputs)) == kept && i < j < |outputs|
    requires forall a, b :: 0 <= a < b < |kept| ==> kept[a].user < kept[b].user
    ensures outputs[i].largest.user < outputs[j].smallest.user
  {
    var parts := ContentsOf(outputs);
    assert FileOk(outputs[i]) && FileOk(outputs[j]);
    FlattenAt(parts, i, |parts[i]| - 1);
    FlattenAt(parts, j, 0);
    OffsetGrows(parts, i, j);
  }

  /** CleanupCompaction after a failed compaction: nothing was installed. */
  function Abandon(s: State, numbers: set<nat>): State
  {
    s.(running := None, pending := s.pending - numbers)
  }

  lemma AbandonInv(s: State, numbers: set<nat>)
    requires Inv(s)
    ensures Inv(Abandon(s, numbers))
  {
  }

  /** DeleteObsoleteFiles: log files that no reopen will read. */
  ghost predicate DeleteLogsStep(s: State, t: State)
  {
    && t == s.(logs := t.logs)
    && (forall n :: n in t.logs ==> n in s.logs && t.logs[n] == s.logs[n])
    && (forall n :: n in s.logs && n >= s.logNumber ==> n in t.logs)
  }

  lemma DeleteLogsInv(s: State, t: State)
    requires Inv(s) && DeleteLogsStep(s, t)
    ensures Inv(t)
  {
    assert Writes(t) == Writes(s) && Visible(t) == Visible(s);
    SameFilesInv(s, t);
  }
}
