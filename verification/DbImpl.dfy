/** The store's code (db/db_impl.cc, class DBImpl; db/version_set.cc,
    LogAndApply): each method that changes state makes steps of the state
    machine in Store, so it keeps the invariant and serves the same reads. */
module DbImpl {
  import opened Wrappers
  import opened Keys
  import opened Files
  import opened VersionSteps
  import opened VersionGet
  import opened History
  import opened Builder
  import opened Manifest
  import opened Store
  import opened Installing
  import Runs
  import Picking
  import Overlap
  import Drop
  import Cuts
  import CompactionWork
  import InputMerge
  import Recovery
  import MemTable

  lemma InvBasics(s: State)
    requires Inv(s)
    ensures VersionOk(s.version) && LevelsOk(s.version) && |s.version| == NUM_LEVELS && s.published <= |s.groups|
    ensures s.logFile in s.logs && s.logNumber <= s.logFile < s.nextFile
    ensures Idle(s) ==> s.lastSequence == s.inserted == |Writes(s)|
  {
    if Idle(s) {
      assert s.groups[..s.published] == s.groups;
    }
  }

  lemma LogGroupAdds(s: State, ops: seq<(Key, Op)>)
    requires Inv(s) && Idle(s) && s.logFile in s.logs
    ensures var g := Numbering(ops, s.lastSequence + 1);
      && Writes(LogGroup(s, ops)) == Writes(s) + g && s.inserted == |Writes(s)| == s.lastSequence
      && Visible(s) == Writes(s) && Writes(LogGroup(s, ops))[s.inserted..] == g
  {
    GroupNumbers(s, ops);
    assert s.groups[..s.published] == s.groups;
  }

  /** Every logged write has reached the memtable. */
  function Inserted(s: State, mem: seq<Entry>): State
  {
    s.(mem := mem, inserted := |Writes(s)|)
  }

  lemma InsertedBound(s: State)
    requires Inv(s)
    ensures s.inserted <= |Writes(s)|
  {
  }

  lemma NextInsert(s: State, i: nat)
    requires s.inserted + i < |Writes(s)|
    ensures Writes(s)[s.inserted..][i] == Writes(s)[s.inserted + i]
  {
  }

  ghost predicate PointersMoved(pointers: seq<Option<IKey>>, updates: seq<(nat, IKey)>, moved: seq<Option<IKey>>)
  {
    (forall u :: u in updates ==> u.0 < |pointers|) && moved == MovePointers(pointers, updates)
  }

  lemma NoMoves(pointers: seq<Option<IKey>>)
    ensures MovePointers(pointers, []) == pointers
  {
  }

  lemma OnePointer(pointers: seq<Option<IKey>>, level: nat, k: IKey, moved: seq<Option<IKey>>)
    requires level < |pointers| && PointersMoved(pointers, [(level, k)], moved)
    ensures moved == pointers[level := Some(k)]
  {
    var updates := [(level, k)];
    assert updates[..0] == [] && updates[1..] == [];
    assert MovePointers(pointers, []) == pointers;
    assert MovePointers(pointers[level := Some(k)], []) == pointers[level := Some(k)];
  }

  lemma Started(s: State, t: State, c: Picking.Compaction, lo: Key, hi: Key)
    requires Inv(s) && s.running.None? && |s.version| == NUM_LEVELS && c.level < NUM_LEVELS - 1
    requires Picking.PickedOk(s.version[c.level], s.version[c.level + 1], c, lo, hi)
    requires t == s.(running := Some(Running(c, lo, hi, s.lastSequence, s.version[c.level + 2..])))
    ensures StartStep(s, t, c, lo, hi) && Inv(t)
  {
    hide Inv;
    hide Picking.PickedOk;
    StartInv(s, t, c, lo, hi);
  }

  lemma RunningLevel(s: State)
    requires Inv(s) && s.running.Some?
    ensures s.running.value.c.level < NUM_LEVELS - 1
  {
  }

  /** One of the memtables has an entry of the key for the reader. */
  predicate InMemory(mem: seq<Entry>, imm: Option<seq<Entry>>, k: Key, snapshot: nat)
  {
    SeekUser(mem, k, snapshot).Some? || (imm.Some? && SeekUser(imm.value, k, snapshot).Some?)
  }

  /** One input, no parent, and little under it that a later compaction would have to merge. */
  predicate IsTrivialMove(c: Picking.Compaction, maxGrandparentBytes: nat)
  {
    |c.inputs0| == 1 && |c.inputs1| == 0 && Overlap.TotalFileSize(c.grandparents) <= maxGrandparentBytes
  }

  class DBImpl {
    const comparator: seq<Byte>
    const maxGrandparentBytes: nat
    const maxExpandedBytes: nat
    var mem: seq<Entry>
    var imm: Option<seq<Entry>>
    var version: Version
    var pointers: seq<Option<IKey>>
    var lastSequence: nat
    var nextFile: nat
    var pending: set<nat>
    var logFile: nat
    var logNumber: nat
    var logs: map<nat, seq<Group>>
    var manifest: seq<Edit>
    var compaction: Option<Picking.Compaction>
    var editPointer: IKey         // the compaction pointer in the running compaction's edit
    var smallestSnapshot: nat
    var deeper: seq<Level>
    ghost var running: Option<Running>
    ghost var groups: seq<Group>
    ghost var published: nat
    ghost var flushed: nat
    ghost var memStart: nat
    ghost var inserted: nat
    ghost var history: seq<Version>

    ghost function St(): State
      reads this
    {
      State(groups, published, flushed, memStart, inserted, lastSequence, mem, imm, version, running,
            nextFile, pending, logFile, logNumber, logs, manifest, history)
    }

    ghost predicate Valid()
      reads this
    {
      Inv(St()) && |pointers| == NUM_LEVELS && RunningKnown()
    }

    /** What the compaction object of the running compaction holds. */
    ghost predicate RunningKnown()
      reads this`compaction, this`running, this`smallestSnapshot, this`deeper
    {
      && (compaction.None? <==> running.None?)
      && (compaction.Some? ==>
        && running.value.c == compaction.value && running.value.snapshot == smallestSnapshot
        && running.value.deeper == deeper
        && Distinct(compaction.value.inputs0) && Distinct(compaction.value.inputs1))
    }

    /** A database that has just been created and opened. */
    constructor (comparator: seq<Byte>, maxGrandparentBytes: nat, maxExpandedBytes: nat)
      ensures Valid() && Runs.Initial(St()) && compaction.None? && pointers == seq(NUM_LEVELS, i => None)
      ensures this.comparator == comparator
      ensures this.maxGrandparentBytes == maxGrandparentBytes && this.maxExpandedBytes == maxExpandedBytes
    {
      this.comparator := comparator;
      this.maxGrandparentBytes, this.maxExpandedBytes := maxGrandparentBytes, maxExpandedBytes;
      var none: seq<Option<IKey>> := seq(NUM_LEVELS, i => None);
      var empty: Version := seq(NUM_LEVELS, i => []);
      var snapshot := WriteSnapshot(comparator, none, empty);
      var first := Edit(None, Some(3), Some(0), Some(4), Some(0), [], {}, []);
      mem, imm, version, pointers := [], None, empty, none;
      lastSequence, nextFile, pending, logFile, logNumber := 0, 4, {}, 3, 3;
      logs := map[3 := []];
      manifest := [snapshot, first];
      compaction, editPointer, smallestSnapshot, deeper := None, IKey(0.0, 0), 0, [];
      running, groups, published := None, [], 0;
      flushed, memStart, inserted := 0, 0, 0;
      history := [empty, empty];
      new;
      forall l, f | 0 <= l < NUM_LEVELS
        ensures f in empty[l] <==> Keeps(empty, first, l, f)
      {
      }
      Runs.InitialInv(St());
    }

    /** DB::Open after a crash in state `s`, of which the manifest and the logs are
        left: it comes up serving every group whose log record is complete. */
    constructor Open(ghost s: State, comparator: seq<Byte>, maxGrandparentBytes: nat, maxExpandedBytes: nat,
                     manifest: seq<Edit>, logs: map<nat, seq<Group>>, full: seq<Entry> -> bool,
                     fileSize: seq<Entry> -> nat)
      requires Inv(s) && s.manifest == manifest && s.logs == logs
      ensures Valid() && RecordedOk(s) && Recovery.Reopened(s, St())
      ensures groups == s.groups && Visible(St()) == Writes(s) && compaction.None?
      ensures |this.manifest| == 2 && this.manifest[1].logNumber.Some?
        && Recovery.Rewritten(s, comparator, full, fileSize, this.manifest[0], this.manifest[1], pointers)
      ensures this.comparator == comparator
      ensures this.maxGrandparentBytes == maxGrandparentBytes && this.maxExpandedBytes == maxExpandedBytes
    {
      hide Inv;
      hide Recovery.Rewritten;
      hide Recovery.Reopened;
      var snapshot, e, next, newPointers := Recovery.ReopenFrom(s, comparator, manifest, logs, full, fileSize);
      this.comparator := comparator;
      this.maxGrandparentBytes, this.maxExpandedBytes := maxGrandparentBytes, maxExpandedBytes;
      mem, imm, version, pointers := [], None, next, newPointers;
      lastSequence, nextFile, pending := e.lastSequence.value, e.nextFile.value, {};
      logFile, logNumber := e.logNumber.value, e.logNumber.value;
      this.logs := logs[e.logNumber.value := []];
      this.manifest := [snapshot, e];
      compaction, editPointer, smallestSnapshot, deeper := None, IKey(0.0, 0), 0, [];
      running, groups, published := None, s.groups, |s.groups|;
      flushed, memStart, inserted := e.lastSequence.value, e.lastSequence.value, e.lastSequence.value;
      history := [s.version, next];
      new;
      Recovery.ReopenedInv(s, St());
    }

    /** DeleteObsoleteFiles, for log files. */
    method DeleteObsoleteLogs()
      requires Valid()
      modifies this`logs
      ensures Valid() && DeleteLogsStep(old(St()), St())
      ensures forall n :: n in logs <==> n in old(logs) && n >= logNumber
    {
      hide Inv;
      ghost var before := St();
      logs := map n | n in logs && n >= logNumber :: logs[n];
      DeleteLogsInv(before, St());
    }

    /** DBImpl::Get at the current sequence: exactly what the visible groups say. */
    method Get(k: Key) returns (r: GetResult, seek: Option<(nat, File)>)
      requires Valid()
      ensures published <= |groups| && r == Expected(Flatten(groups[..published]), k)
      ensures if InMemory(mem, imm, k, lastSequence) then seek == None
        else VersionGet.SeekCharged(version, k, lastSequence, seek)
      ensures seek.Some? ==>
        seek.value.0 < NUM_LEVELS - 1 && seek.value.0 < |version| && seek.value.1 in version[seek.value.0]
    {
      hide Inv;
      hide VersionOk;
      hide VersionGet.SeekCharged;
      InvBasics(St());
      seek := None;
      var hit := SeekUser(mem, k, lastSequence);
      if hit.Some? {
        r := ResultOf(hit.value);
      } else {
        if imm.Some? {
          hit := SeekUser(imm.value, k, lastSequence);
        }
        if hit.Some? {
          r := ResultOf(hit.value);
        } else {
          r, seek := VersionGet.Get(version, k, lastSequence);
          VersionGet.ChargedLevel(version, k, lastSequence, seek);
        }
      }
      assert Runs.Gives(mem, imm, version, k, lastSequence, r);
      Runs.GetNow(St(), k, r);
    }

    /** The leader of the writer queue: log the group, insert it, publish it. */
    method Write(ops: seq<(Key, Op)>)
      requires Valid() && Idle(St()) && |Writes(St())| + |ops| < MAX_SEQUENCE
      modifies this`logs, this`groups, this`mem, this`inserted, this`lastSequence, this`published
      ensures Valid()
      ensures St() == Publish(Inserted(LogGroup(old(St()), ops), mem))
      ensures Visible(St()) == old(Visible(St())) + Numbering(ops, old(lastSequence) + 1)
    {
      hide Numbering;
      hide Inv;
      hide Idle;
      hide Visible;
      ghost var before := St();
      InvBasics(before);
      LogGroupInv(before, ops);
      LogGroupAdds(before, ops);
      var updates := Numbering(ops, lastSequence + 1);
      logs := logs[logFile := logs[logFile] + [updates]];
      groups := groups + [updates];
      assert St() == LogGroup(before, ops);
      InsertInto(updates);
      ghost var after := Inserted(LogGroup(before, ops), mem);
      assert St() == after;
      PublishInv(after);
      lastSequence := lastSequence + |updates|;
      published := |groups|;
      assert St() == Publish(after);
    }

    /** WriteBatchInternal::InsertInto: one memtable insertion per entry. */
    method InsertInto(updates: Group)
      requires Valid() && Writes(St())[inserted..] == updates
      modifies this`mem, this`inserted
      ensures Valid() && inserted == |Writes(St())|
      ensures St() == Inserted(old(St()), mem)
    {
      hide Inv;
      ghost var before := St();
      InsertedBound(before);
      var i := 0;
      while i < |updates|
        invariant 0 <= i <= |updates| && Valid()
        invariant St() == before.(mem := mem, inserted := before.inserted + i)
      {
        NextInsert(before, i);
        InsertOneInv(St());
        mem := MemTable.Add(mem, updates[i]);
        inserted := inserted + 1;
        i := i + 1;
      }
    }

    /** MakeRoomForWrite, when the memtable is full and no flush is due. */
    method SwitchMemTable()
      requires Valid() && Idle(St()) && imm.None?
      modifies this`nextFile, this`logFile, this`logs, this`imm, this`mem, this`memStart
      ensures Valid() && St() == SwitchMem(old(St()))
    {
      hide Inv;
      SwitchMemInv(St());
      var newLogNumber := nextFile;
      nextFile := nextFile + 1;
      logFile := newLogNumber;
      logs := logs[newLogNumber := []];
      imm := Some(mem);
      mem := [];
      memStart := inserted;
    }

    /** NewFileNumber, remembered in pending_outputs_. */
    method NewOutputNumber() returns (number: nat)
      requires Valid()
      modifies this`nextFile, this`pending
      ensures Valid() && St() == Alloc(old(St())) && number == old(nextFile)
    {
      hide Inv;
      AllocInv(St());
      number := nextFile;
      pending := pending + {number};
      nextFile := nextFile + 1;
    }

    /** Fill in the edit, build the next version, append to the manifest, install. */
    method LogAndApply(edit: Edit) returns (e: Edit)
      requires |version| == NUM_LEVELS && |pointers| == NUM_LEVELS
      requires EditOk(edit) && Installable(version, edit) && AddsDistinct(edit)
      requires edit.comparator.None? && (edit.prevLogNumber.None? || edit.prevLogNumber == Some(0))
      requires edit.logNumber.Some? ==> logNumber <= edit.logNumber.value < nextFile
      modifies this`version, this`pointers, this`manifest, this`history, this`logNumber
      ensures |pointers| == NUM_LEVELS && EditOk(e) && PointersMoved(old(pointers), edit.compactPointers, pointers)
      ensures e.deleted == edit.deleted && e.added == edit.added && e.compactPointers == edit.compactPointers
      ensures Stamped(old(St()), e, if edit.logNumber.Some? then edit.logNumber.value else old(logNumber), nextFile)
      ensures AfterEdit(old(version), e, version)
      ensures St() == Install(old(St()), e, version)
    {
      hide Installable;
      hide AddsDistinct;
      hide AfterEdit;
      hide EditOk;
      hide Inv;
      hide MovePointers;
      hide Stamped;
      var next, newPointers;
      e, next, newPointers := NextVersion(edit);
      pointers := newPointers;
      manifest := manifest + [e];
      version := next;
      history := history + [next];
      logNumber := e.logNumber.value;
    }

    /** What LogAndApply computes before it writes anything. */
    method NextVersion(edit: Edit) returns (e: Edit, next: Version, newPointers: seq<Option<IKey>>)
      requires |version| == NUM_LEVELS && |pointers| == NUM_LEVELS
      requires EditOk(edit) && Installable(version, edit) && AddsDistinct(edit)
      requires edit.comparator.None? && (edit.prevLogNumber.None? || edit.prevLogNumber == Some(0))
      ensures |newPointers| == NUM_LEVELS && EditOk(e) && PointersMoved(pointers, edit.compactPointers, newPointers)
      ensures e.deleted == edit.deleted && e.added == edit.added && e.compactPointers == edit.compactPointers
      ensures Stamped(St(), e, if edit.logNumber.Some? then edit.logNumber.value else logNumber, nextFile)
      ensures e.logNumber.Some? && AfterEdit(version, e, next)
    {
      hide Installable;
      hide AddsDistinct;
      hide AfterEdit;
      hide Inv;
      e := Stamp(edit, logNumber, nextFile, lastSequence);
      SameKept(version, edit, e);
      next, newPointers := BuildVersion(version, pointers, e);
    }

    /** CompactMemTable: write the immutable memtable as a table at a level where
        it meets nothing, make the older logs obsolete, and forget it. */
    method CompactMemTable(fileSize: seq<Entry> -> nat) returns (ghost level: nat, ghost f: Option<File>, ghost e: Edit)
      requires Valid() && imm.Some?
      modifies this`imm, this`flushed, this`nextFile
      modifies this`version, this`pointers, this`manifest, this`history, this`logNumber
      ensures Valid() && imm.None?
      ensures FlushStep(old(St()), St(), level, f, e, version)
      ensures Visible(St()) == old(Visible(St())) && pointers == old(pointers)
      ensures f == BuiltTable(old(imm).value, old(nextFile), fileSize)
      ensures |old(version)| == NUM_LEVELS && IsFlushLevel(old(version), f, maxGrandparentBytes, level)
    {
      hide IsFlushLevel;
      hide BuiltTable;
      hide MovePointers;
      hide Distinct;
      hide VersionOk;
      hide LevelsOk;
      hide Stamped;
      hide Visible;
      hide Writes;
      hide Inv;
      hide RunningKnown;
      hide Prepared;
      hide FlushStep;
      hide AfterEdit;
      hide EditOk;
      hide Installable;
      hide AddsDistinct;
      ghost var before := St();
      var edit;
      edit, level, f := WriteLevel0Table(fileSize);
      NoMoves(pointers);
      PreparedFacts(before, level, f, edit);
      nextFile := nextFile + 1;
      ghost var given := before.(nextFile := before.nextFile + 1);
      assert St() == given;
      e := LogAndApply(edit);
      StampedBefore(before, given, e, before.logFile, given.nextFile);
      ghost var after := St();
      assert after == Install(given, e, version);
      imm := None;
      flushed := memStart;
      assert St() == after.(imm := None, flushed := before.memStart);
      FlushDone(before, St(), level, f, edit, e, version);
    }

    /** WriteLevel0Table: the table file and the edit that adds it. */
    method WriteLevel0Table(fileSize: seq<Entry> -> nat) returns (edit: Edit, ghost level: nat, ghost f: Option<File>)
      requires Valid() && imm.Some?
      ensures Prepared(St(), level, f, edit) && edit.compactPointers == []
      ensures f == BuiltTable(imm.value, nextFile, fileSize)
      ensures |version| == NUM_LEVELS && IsFlushLevel(version, f, maxGrandparentBytes, level)
    {
      hide Inv;
      hide VersionOk;
      InvBasics(St());
      var built := BuildTable(imm.value, nextFile, fileSize);
      FlushFileOk(St(), built);
      edit := NONE.(logNumber := Some(logFile), prevLogNumber := Some(0));
      var placed := 0;
      if built.Some? {
        placed := Overlap.PickLevelForMemTableOutput(version, built.value.smallest.user, built.value.largest.user,
          maxGrandparentBytes);
        Overlap.OutputLevelMisses(version, built.value.smallest.user, built.value.largest.user, maxGrandparentBytes,
                                  placed);
        edit := edit.(added := [(placed, built.value)]);
      }
      level, f := placed, built;
      FlushEdit(St(), placed, built, edit);
    }

    /** BackgroundCompaction without an immutable memtable: pick inputs, and either
        move a lone file down or leave the compaction set up to run. */
    method BackgroundCompaction(sizeLevel: Option<nat>, seek: Option<(nat, File)>)
      returns (picked: Option<Picking.Compaction>, ghost lo: Key, ghost hi: Key)
      requires Valid() && compaction.None? && |version| == NUM_LEVELS
      requires sizeLevel.Some? ==> sizeLevel.value < NUM_LEVELS - 1 && version[sizeLevel.value] != []
      requires seek.Some? ==> seek.value.0 < NUM_LEVELS - 1 && seek.value.1 in version[seek.value.0]
      modifies this`compaction, this`editPointer, this`smallestSnapshot, this`deeper, this`running
      modifies this`version, this`pointers, this`manifest, this`history, this`logNumber
      ensures Valid() && (picked.None? <==> sizeLevel.None? && seek.None?)
      ensures picked.None? ==> St() == old(St()) && pointers == old(pointers)
      ensures picked.Some? ==>
        Picking.Picked(old(version), sizeLevel, old(pointers), seek, maxExpandedBytes, picked.value, pointers, lo, hi)
      ensures picked.Some? ==> pointers[picked.value.level].Some?
      ensures picked.Some? && compaction.Some? ==>
        && compaction == picked && StartStep(old(St()), St(), picked.value, lo, hi)
        && pointers[picked.value.level] == Some(editPointer)
      ensures picked.Some? && compaction.None? ==>
        exists f, e :: MoveStep(old(St()), St(), picked.value, lo, hi, f, e, version)
          && e.compactPointers == [(picked.value.level, pointers[picked.value.level].value)]
      ensures picked.Some? ==> (compaction.None? <==> IsTrivialMove(picked.value, maxGrandparentBytes))
    {
      hide Inv;
      hide Picking.PickedOk;
      hide Picking.Picked;
      hide MoveStep;
      hide StartStep;
      var newPointers;
      picked, newPointers, lo, hi := Pick(sizeLevel, seek);
      assert picked.Some? ==> newPointers[picked.value.level := newPointers[picked.value.level]] == newPointers;
      if picked.Some? {
        pointers := newPointers;
        var c := picked.value;
        var pointer := newPointers[c.level].value;
        if IsTrivialMove(c, maxGrandparentBytes) {
          TrivialMove(c, pointer, lo, hi);
        } else {
          StartCompaction(c, pointer, lo, hi);
        }
      }
    }

    method Pick(sizeLevel: Option<nat>, seek: Option<(nat, File)>)
      returns (c: Option<Picking.Compaction>, newPointers: seq<Option<IKey>>, ghost lo: Key, ghost hi: Key)
      requires Valid() && |version| == NUM_LEVELS
      requires sizeLevel.Some? ==> sizeLevel.value < NUM_LEVELS - 1 && version[sizeLevel.value] != []
      requires seek.Some? ==> seek.value.0 < NUM_LEVELS - 1 && seek.value.1 in version[seek.value.0]
      ensures c.None? <==> sizeLevel.None? && seek.None?
      ensures c.Some? ==>
        |newPointers| == NUM_LEVELS && c.value.level < NUM_LEVELS - 1 && newPointers[c.value.level].Some?
      ensures c.Some? ==> Picking.PickedOk(version[c.value.level], version[c.value.level + 1], c.value, lo, hi)
      ensures c.Some? ==>
        Picking.Picked(version, sizeLevel, pointers, seek, maxExpandedBytes, c.value, newPointers, lo, hi)
    {
      hide Inv;
      hide VersionOk;
      hide LevelsOk;
      hide Distinct;
      hide Picking.PickedOk;
      InvBasics(St());
      VersionDistinct(version);
      c, newPointers, lo, hi := Picking.PickCompaction(version, sizeLevel, pointers, seek, maxExpandedBytes);
      if c.Some? {
        PickedPointer(version, sizeLevel, pointers, seek, maxExpandedBytes, c.value, newPointers, lo, hi);
      }
    }

    method StartCompaction(c: Picking.Compaction, pointer: IKey, ghost lo: Key, ghost hi: Key)
      requires Valid() && compaction.None? && |version| == NUM_LEVELS && c.level < NUM_LEVELS - 1
      requires Picking.PickedOk(version[c.level], version[c.level + 1], c, lo, hi)
      modifies this`compaction, this`editPointer, this`smallestSnapshot, this`deeper, this`running
      ensures Valid() && compaction == Some(c) && editPointer == pointer
      ensures StartStep(old(St()), St(), c, lo, hi)
    {
      hide Inv;
      hide Picking.PickedOk;
      hide StartStep;
      ghost var before := St();
      compaction, editPointer, smallestSnapshot, deeper := Some(c), pointer, lastSequence, version[c.level + 2..];
      running := Some(Running(c, lo, hi, lastSequence, deeper));
      InputsDistinct(c, lo, hi, version[c.level], version[c.level + 1]);
      hide Distinct;
      Started(before, St(), c, lo, hi);
    }

    /** OpenCompactionOutputFile and FinishCompactionOutputFile, piece by piece. */
    method WriteOutputs(parts: seq<seq<Entry>>, fileSize: seq<Entry> -> nat) returns (files: Level, numbers: set<nat>)
      requires Valid() && forall i :: 0 <= i < |parts| ==> Writable(parts[i])
      modifies this`nextFile, this`pending
      ensures Valid() && St() == Allocated(old(St()), |parts|)
      ensures FilesOk(files) && ContentsOf(files) == parts && NumbersIn(files, numbers) && numbers <= pending
      ensures WrittenFrom(files, old(nextFile), fileSize) && numbers == NumbersOf(files)
    {
      hide Inv;
      hide FileOk;
      files, numbers := [], {};
      ghost var before := St();
      while |files| < |parts|
        invariant |files| <= |parts| && Valid() && St() == Allocated(before, |files|)
        invariant FilesOk(files) && ContentsOf(files) == parts[..|files|]
        invariant NumbersIn(files, numbers) && numbers <= pending && forall n :: n in numbers ==> n < nextFile
        invariant nextFile == before.nextFile + |files|
        invariant WrittenFrom(files, before.nextFile, fileSize) && numbers == NumbersOf(files)
      {
        var part := parts[|files|];
        var number := NewOutputNumber();
        var f := TableFile(part, number, fileSize(part));
        TableFileOk(part, number, fileSize(part));
        files, numbers := files + [f], numbers + {number};
      }
    }

    /** DoCompactionWork and InstallCompactionResults: merge the inputs, drop what
        no read needs, write the rest as new tables, and swap them in.  `mid` is
        the state with the output numbers handed out. */
    method FinishCompaction(fileSize: seq<Entry> -> nat, maxOutputFileSize: nat)
      returns (ghost mid: State, ghost merged: seq<Entry>, ghost outputs: Level, ghost numbers: set<nat>, ghost e: Edit)
      requires Valid() && compaction.Some?
      modifies this`nextFile, this`pending, this`compaction, this`running
      modifies this`version, this`pointers, this`manifest, this`history, this`logNumber
      ensures Valid() && compaction.None? && Visible(St()) == old(Visible(St()))
      ensures e.compactPointers == [(old(compaction).value.level, old(editPointer))]
      ensures mid == Allocated(old(St()), |outputs|)
      ensures FinishStep(mid, St(), merged, outputs, numbers, e, version)
      ensures WrittenFrom(outputs, old(nextFile), fileSize) && numbers == NumbersOf(outputs)
      ensures e.added == Additions(old(compaction).value.level + 1, outputs)
      ensures StrictlySorted(merged) && Cuts.WellCut(
        Cuts.Rules(old(compaction).value.grandparents, maxGrandparentBytes, fileSize, maxOutputFileSize),
        merged, ContentsOf(outputs))
      ensures pointers == old(pointers)[old(compaction).value.level := Some(old(editPointer))]
    {
      hide Cuts.WellCut;
      hide Inv;
      hide FinishStep;
      hide InputMerge.Mergeable;
      hide MergedInput;
      var c := compaction.value;
      RunningFacts(St());
      var input := InputMerge.MergeFiles(c.Inputs());
      var run := new CompactionWork.Run(deeper, c.grandparents, maxGrandparentBytes);
      var parts := CompactionWork.DoCompactionWork(run, input, smallestSnapshot, fileSize, maxOutputFileSize);
      Cuts.NoneIsEmpty(Cuts.Rules(c.grandparents, maxGrandparentBytes, fileSize, maxOutputFileSize), input, parts);
      PartsWritable(c, input, smallestSnapshot, deeper, parts);
      var files, taken := WriteOutputs(parts, fileSize);
      AllocatedKeeps(old(St()), |parts|);
      mid, merged, outputs, numbers := St(), input, files, taken;
      e := InstallCompactionResults(input, files, taken);
    }

    method InstallCompactionResults(ghost merged: seq<Entry>, outputs: Level, numbers: set<nat>) returns (ghost e: Edit)
      requires Valid() && compaction.Some? && MergedInput(compaction.value, merged)
      requires FilesOk(outputs) && NumbersIn(outputs, numbers) && numbers <= pending
      requires Flatten(ContentsOf(outputs)) == Drop.Survivors(merged, |merged|, smallestSnapshot, deeper)
      modifies this`pending, this`compaction, this`running
      modifies this`version, this`pointers, this`manifest, this`history, this`logNumber
      ensures Valid() && compaction.None? && Visible(St()) == old(Visible(St()))
      ensures e.compactPointers == [(old(compaction).value.level, old(editPointer))]
      ensures FinishStep(old(St()), St(), merged, outputs, numbers, e, version)
      ensures e.added == Additions(old(compaction).value.level + 1, outputs)
      ensures pointers == old(pointers)[old(compaction).value.level := Some(old(editPointer))]
    {
      hide Visible;
      hide ContentsOf;
      hide Flatten;
      hide Drop.Survivors;
      hide Writes;
      hide Picking.PickedOk;
      hide PointersMoved;
      hide Inv;
      hide FinishStep;
      hide MergedInput;
      hide FilesOk;
      hide NumbersIn;
      hide AfterEdit;
      hide EditOk;
      hide Installable;
      hide AddsDistinct;
      hide Stamped;
      ghost var before := St();
      var c := compaction.value;
      var edit := NONE.(
        deleted := (set f | f in c.inputs0 :: (c.level, f.number)) + (set f | f in c.inputs1 ::
          (c.level + 1, f.number)),
        added := Additions(c.level + 1, outputs),
        compactPointers := [(c.level, editPointer)]);
      RunningLevel(before);
      FinishEdit(before, merged, outputs, numbers, edit);
      e := LogAndApply(edit);
      OnePointer(old(pointers), c.level, editPointer, pointers);
      compaction, running := None, None;
      pending := pending - numbers;
      FinishDone(before, St(), merged, outputs, numbers, edit, e, version);
    }

    method TrivialMove(c: Picking.Compaction, pointer: IKey, ghost lo: Key, ghost hi: Key)
      requires Valid() && compaction.None? && |version| == NUM_LEVELS && c.level < NUM_LEVELS - 1
      requires Picking.PickedOk(version[c.level], version[c.level + 1], c, lo, hi)
      requires |c.inputs0| == 1 && |c.inputs1| == 0
      modifies this`version, this`pointers, this`manifest, this`history, this`logNumber
      ensures Valid() && compaction.None? && Visible(St()) == old(Visible(St()))
      ensures pointers == old(pointers)[c.level := Some(pointer)]
      ensures exists f, e ::
        MoveStep(old(St()), St(), c, lo, hi, f, e, version) && e.compactPointers == [(c.level, pointer)]
    {
      hide Inv;
      ghost var before := St();
      var f := c.inputs0[0];
      assert c.inputs0 == [f] && c.inputs1 == [];
      var edit := NONE.(deleted := {(c.level, f.number)}, added := [(c.level + 1, f)],
                        compactPointers := [(c.level, pointer)]);
      MoveEdit(before, c, lo, hi, f, pointer, edit);
      var e := LogAndApply(edit);
      OnePointer(old(pointers), c.level, pointer, pointers);
      assert MoveStep(before, St(), c, lo, hi, f, e, version);
      MoveInv(before, St(), c, lo, hi, f, e, version);
    }
  }

  /** One addition per file. */
  function Additions(level: nat, files: Level): (added: seq<(nat, File)>)
    ensures |added| == |files| && forall i :: 0 <= i < |files| ==> added[i] == (level, files[i])
  {
    seq(|files|, i requires 0 <= i < |files| => (level, files[i]))
  }

  /** `n` file numbers handed out for compaction outputs. */
  function Allocated(s: State, n: nat): State
  {
    if n == 0 then s else Alloc(Allocated(s, n - 1))
  }

  lemma {:induction false} AllocatedKeeps(s: State, n: nat)
    ensures Allocated(s, n) == s.(nextFile := Allocated(s, n).nextFile, pending := Allocated(s, n).pending)
  {
    if n > 0 {
      AllocatedKeeps(s, n - 1);
    }
  }

  /** AddInputDeletions, then one addition per output. */
  ghost predicate SwapsIn(c: Picking.Compaction, outputs: Level, edit: Edit)
  {
    && edit.comparator.None? && edit.logNumber.None? && edit.prevLogNumber.None?
    && (forall d :: d in edit.deleted <==> DeletesInput(c, d))
    && (forall l, g :: AddsFile(edit, l, g) <==> l == c.level + 1 && g in outputs)
  }

  lemma FinishEdit(s: State, merged: seq<Entry>, outputs: Level, numbers: set<nat>, edit: Edit)
    requires Inv(s) && s.running.Some? && MergedInput(s.running.value.c, merged)
    requires FilesOk(outputs) && NumbersIn(outputs, numbers) && numbers <= s.pending
    requires Flatten(ContentsOf(outputs))
      == Drop.Survivors(merged, |merged|, s.running.value.snapshot, s.running.value.deeper)
    requires var c := s.running.value.c;
      && edit.deleted == (set f | f in c.inputs0 :: (c.level, f.number)) + (set f | f in c.inputs1 ::
        (c.level + 1, f.number))
      && edit == NONE.(deleted := edit.deleted, added := edit.added, compactPointers := edit.compactPointers)
      && |edit.added| == |outputs| && (forall p :: p in edit.compactPointers ==> p.0 < NUM_LEVELS)
      && forall i :: 0 <= i < |outputs| ==> edit.added[i] == (c.level + 1, outputs[i])
    ensures EditOk(edit) && Installable(s.version, edit) && AddsDistinct(edit)
    ensures SwapsIn(s.running.value.c, outputs, edit) && |s.version| == NUM_LEVELS
  {
    hide VersionOk;
    hide ManifestOk;
    hide RecordedOk;
    hide LogsOk;
    hide MergedInput;
    hide FilesOk;
    hide NumbersOk;
    hide DeeperKnown;
    var r := s.running.value;
    SwapEdit(r.c, outputs, edit);
    OutputsFromSurvivors(r.c, merged, r.snapshot, r.deeper, outputs);
    FinishInstallable(s, r.c, r.lo, r.hi, outputs, numbers, edit);
  }

  lemma SwapEdit(c: Picking.Compaction, outputs: Level, edit: Edit)
    requires c.level < NUM_LEVELS - 1
    requires edit.deleted == (set f | f in c.inputs0 :: (c.level, f.number)) + (set f | f in c.inputs1 ::
      (c.level + 1, f.number))
    requires edit == NONE.(deleted := edit.deleted, added := edit.added, compactPointers := edit.compactPointers)
    requires |edit.added| == |outputs| && forall p :: p in edit.compactPointers ==> p.0 < NUM_LEVELS
    requires forall i :: 0 <= i < |outputs| ==> edit.added[i] == (c.level + 1, outputs[i])
    ensures EditOk(edit) && SwapsIn(c, outputs, edit)
  {
    forall l, g | l == c.level + 1 && g in outputs
      ensures AddsFile(edit, l, g)
    {
      var i :| 0 <= i < |outputs| && outputs[i] == g;
      assert edit.added[i] == (l, g);
    }
  }

  lemma FinishIsStep(s: State, t: State, merged: seq<Entry>, outputs: Level, numbers: set<nat>, edit: Edit, e: Edit,
                     next: Version)
    requires s.running.Some? && MergedInput(s.running.value.c, merged)
    requires FilesOk(outputs) && NumbersIn(outputs, numbers) && numbers <= s.pending
    requires Flatten(ContentsOf(outputs))
      == Drop.Survivors(merged, |merged|, s.running.value.snapshot, s.running.value.deeper)
    requires SwapsIn(s.running.value.c, outputs, edit)
    requires EditOk(e) && e.deleted == edit.deleted && e.added == edit.added && AfterEdit(s.version, e, next)
    requires Stamped(s, e, s.logNumber, s.nextFile)
    requires t == Install(s, e, next).(running := None, pending := s.pending - numbers)
    ensures FinishStep(s, t, merged, outputs, numbers, e, next)
  {
    hide EditOk;
    hide AfterEdit;
    hide FilesOk;
    hide MergedInput;
    hide NumbersIn;
    forall l, g
      ensures AddsFile(e, l, g) <==> AddsFile(edit, l, g)
    {
    }
  }

  lemma FinishDone(s: State, t: State, merged: seq<Entry>, outputs: Level, numbers: set<nat>, edit: Edit, e: Edit,
                   next: Version)
    requires Inv(s) && s.running.Some? && MergedInput(s.running.value.c, merged)
    requires FilesOk(outputs) && NumbersIn(outputs, numbers) && numbers <= s.pending
    requires Flatten(ContentsOf(outputs))
      == Drop.Survivors(merged, |merged|, s.running.value.snapshot, s.running.value.deeper)
    requires SwapsIn(s.running.value.c, outputs, edit)
    requires EditOk(e) && e.deleted == edit.deleted && e.added == edit.added && AfterEdit(s.version, e, next)
    requires Stamped(s, e, s.logNumber, s.nextFile)
    requires t == Install(s, e, next).(running := None, pending := s.pending - numbers)
    ensures FinishStep(s, t, merged, outputs, numbers, e, next) && Inv(t) && Visible(t) == Visible(s)
  {
    hide *;
    FinishIsStep(s, t, merged, outputs, numbers, edit, e, next);
    FinishInv(s, t, merged, outputs, numbers, e, next);
  }

  lemma InputsDistinct(c: Picking.Compaction, lo: Key, hi: Key, files: Level, parents: Level)
    requires Picking.PickedOk(files, parents, c, lo, hi)
    ensures Distinct(c.inputs0) && Distinct(c.inputs1)
  {
  }

  /** A list of entries that can be written as a table. */
  ghost predicate Writable(part: seq<Entry>)
  {
    part != [] && StrictlySorted(part) && forall e :: e in part ==> e.seqno <= MAX_SEQUENCE
  }

  /** What a running compaction reads can be merged. */
  lemma RunningFacts(s: State)
    requires Inv(s) && s.running.Some?
    requires Distinct(s.running.value.c.inputs0) && Distinct(s.running.value.c.inputs1)
    ensures InputMerge.Mergeable(s.running.value.c.Inputs()) && FilesOk(s.running.value.c.Inputs())
    ensures s.running.value.snapshot < MAX_SEQUENCE
    ensures forall l :: 0 <= l < |s.running.value.deeper| ==>
      FilesOk(s.running.value.deeper[l]) && DisjointSorted(s.running.value.deeper[l])
  {
    hide VersionOk;
    hide Represents;
    hide Replaceable;
    hide NumbersOk;
    hide ManifestOk;
    hide RecordedOk;
    hide LogsOk;
    hide DeeperKnown;
    var r := s.running.value;
    InputMerge.InputsMergeable(s.version, r.c, r.lo, r.hi, Writes(s), s.flushed);
  }

  /** The pieces a compaction writes are pieces of a sorted list. */
  lemma PartsWritable(c: Picking.Compaction, input: seq<Entry>, snap: nat, deeper: seq<Level>, parts: seq<seq<Entry>>)
    requires StrictlySorted(input) && (forall e :: e in input <==> OutputEntry(c.Inputs(), e))
    requires FilesOk(c.Inputs()) && forall i :: 0 <= i < |parts| ==> parts[i] != []
    requires Flatten(parts) == Drop.Survivors(input, |input|, snap, deeper)
    ensures forall i :: 0 <= i < |parts| ==> Writable(parts[i])
    ensures MergedInput(c, input)
  {
    Drop.SurvivorsSorted(input, |input|, snap, deeper);
    forall i | 0 <= i < |parts|
      ensures Writable(parts[i])
    {
      InputMerge.PartSorted(parts, i);
      forall e | e in parts[i]
        ensures e.seqno <= MAX_SEQUENCE
      {
        assert e in input[..|input|] && e in input;
        var f :| f in c.Inputs() && e in f.entries;
        assert FileOk(f);
      }
    }
    forall e
      ensures e in input <==> InputEntry(c, e)
    {
    }
  }

  /** The file for a memtable: none if there is nothing in it. */
  function BuiltTable(entries: seq<Entry>, number: nat, fileSize: seq<Entry> -> nat): (f: Option<File>)
    ensures f.None? <==> entries == []
    ensures f.Some? ==>
      f.value.entries == entries && f.value.number == number && f.value.size == fileSize(entries)
  {
    if entries == [] then None else Some(TableFile(entries, number, fileSize(entries)))
  }

  /** Where a flushed table goes: as deep as it may be pushed. */
  ghost predicate IsFlushLevel(v: Version, f: Option<File>, maxGrandparentBytes: nat, level: nat)
    requires |v| == NUM_LEVELS
  {
    match f
    case None => level == 0
    case Some(t) => Overlap.IsOutputLevel(v, t.smallest.user, t.largest.user, maxGrandparentBytes, level)
  }

  /** BuildTable. */
  method BuildTable(entries: seq<Entry>, number: nat, fileSize: seq<Entry> -> nat) returns (f: Option<File>)
    ensures f == BuiltTable(entries, number, fileSize)
  {
    if entries == [] {
      f := None;
    } else {
      f := Some(TableFile(entries, number, fileSize(entries)));
    }
  }

  function NumbersOf(files: Level): set<nat>
  {
    set f | f in files :: f.number
  }

  /** Outputs are numbered from `first` on, and their sizes are those of their tables. */
  ghost predicate WrittenFrom(files: Level, first: nat, fileSize: seq<Entry> -> nat)
  {
    forall i :: 0 <= i < |files| ==> files[i].number == first + i && files[i].size == fileSize(files[i].entries)
  }

  lemma TableFileOk(part: seq<Entry>, number: nat, size: nat)
    requires Writable(part)
    ensures FileOk(TableFile(part, number, size))
  {
  }

  lemma FlushFileOk(s: State, f: Option<File>)
    requires Inv(s) && s.imm.Some?
    requires f.None? <==> s.imm.value == []
    requires f.Some? ==> exists size :: f.value == TableFile(s.imm.value, s.nextFile, size)
    ensures f.Some? ==> FileOk(f.value)
  {
    assert forall e :: IsWrite(Writes(s), s.memStart, e) ==> e.seqno <= MAX_SEQUENCE;
  }

  /** The immutable memtable has been written as `f`, to be added at `level`. */
  ghost predicate Prepared(s: State, level: nat, f: Option<File>, edit: Edit)
  {
    && s.imm.Some? && level <= MAX_MEM_COMPACT_LEVEL && |s.version| == NUM_LEVELS
    && (f.None? <==> s.imm.value == [])
    && (f.Some? ==> FileOk(f.value) && f.value.entries == s.imm.value && f.value.number == s.nextFile)
    && (f.Some? ==> Placeable(s.version, level, f.value))
    && EditOk(edit) && Installable(s.version, edit) && AddsDistinct(edit) && edit.deleted == {}
    && edit.comparator.None? && edit.logNumber == Some(s.logFile) && edit.prevLogNumber == Some(0)
    && (forall l, g :: AddsFile(edit, l, g) <==> l == level && f == Some(g))
  }

  lemma FlushEdit(s: State, level: nat, f: Option<File>, edit: Edit)
    requires Inv(s) && s.imm.Some? && level <= MAX_MEM_COMPACT_LEVEL && (f.None? <==> s.imm.value == [])
    requires f.Some? ==> FileOk(f.value) && f.value.entries == s.imm.value && f.value.number == s.nextFile
    requires f.Some? && level > 0 ==> forall l :: 0 <= l <= level ==>
      !Overlap.SomeMeets(s.version[l], Some(f.value.smallest.user), Some(f.value.largest.user))
    requires edit == NONE.(logNumber := Some(s.logFile), prevLogNumber := Some(0),
                           added := if f.Some? then [(level, f.value)] else [])
    ensures Prepared(s, level, f, edit)
  {
    forall l, g
      ensures AddsFile(edit, l, g) <==> l == level && f == Some(g)
    {
    }
    FlushInstallable(s, level, f, edit);
  }

  lemma PreparedFacts(s: State, level: nat, f: Option<File>, edit: Edit)
    requires Inv(s) && Prepared(s, level, f, edit)
    ensures |s.version| == NUM_LEVELS && EditOk(edit) && Installable(s.version, edit) && AddsDistinct(edit)
    ensures edit.comparator.None? && edit.prevLogNumber == Some(0)
    ensures edit.logNumber == Some(s.logFile) && s.logNumber <= s.logFile < s.nextFile
  {
  }

  lemma FlushIsStep(s: State, t: State, level: nat, f: Option<File>, edit: Edit, e: Edit, next: Version)
    requires Prepared(s, level, f, edit)
    requires EditOk(e) && e.deleted == edit.deleted && e.added == edit.added && AfterEdit(s.version, e, next)
    requires Stamped(s, e, s.logFile, s.nextFile + 1)
    requires t == Install(s.(nextFile := s.nextFile + 1), e, next).(imm := None, flushed := s.memStart)
    ensures FlushStep(s, t, level, f, e, next)
  {
    hide Installable;
    hide AddsDistinct;
    hide EditOk;
    hide AfterEdit;
    hide Placeable;
    hide FileOk;
    forall l, g
      ensures AddsFile(e, l, g) <==> AddsFile(edit, l, g)
    {
    }
  }

  lemma StampedBefore(s: State, t: State, e: Edit, logNumber: nat, nextFile: nat)
    requires Stamped(t, e, logNumber, nextFile) && t.lastSequence == s.lastSequence
    ensures Stamped(s, e, logNumber, nextFile) && e.logNumber.Some?
  {
  }

  lemma FlushDone(s: State, t: State, level: nat, f: Option<File>, edit: Edit, e: Edit, next: Version)
    requires Inv(s) && Prepared(s, level, f, edit)
    requires EditOk(e) && e.deleted == edit.deleted && e.added == edit.added && AfterEdit(s.version, e, next)
    requires Stamped(s, e, s.logFile, s.nextFile + 1)
    requires t == Install(s.(nextFile := s.nextFile + 1), e, next).(imm := None, flushed := s.memStart)
    ensures FlushStep(s, t, level, f, e, next) && Inv(t) && Visible(t) == Visible(s)
  {
    hide *;
    FlushIsStep(s, t, level, f, edit, e, next);
    FlushInv(s, t, level, f, e, next);
  }

  lemma VersionDistinct(v: Version)
    requires VersionOk(v)
    ensures LevelsOk(v) && forall l :: 0 <= l < NUM_LEVELS ==> Distinct(v[l])
  {
    forall l | 0 <= l < NUM_LEVELS
      ensures Distinct(v[l])
    {
      forall i, j | 0 <= i < j < |v[l]|
        ensures v[l][i] != v[l][j]
      {
        assert BySmallestKey(v[l][i], v[l][j]);
        SmallestOrder(v[l][i], v[l][j], v[l][i]);
      }
    }
  }

  lemma PickedPointer(v: Version, sizeLevel: Option<nat>, pointers: seq<Option<IKey>>, seek: Option<(nat, File)>,
                      maxExpandedBytes: nat, c: Picking.Compaction, moved: seq<Option<IKey>>, lo: Key, hi: Key)
    requires |v| == |pointers| == NUM_LEVELS && (sizeLevel.Some? ==> sizeLevel.value < NUM_LEVELS)
    requires Picking.Picked(v, sizeLevel, pointers, seek, maxExpandedBytes, c, moved, lo, hi)
    ensures c.level < NUM_LEVELS - 1 && |moved| == NUM_LEVELS && moved[c.level].Some?
    ensures moved == pointers[c.level := moved[c.level]]
  {
    hide Picking.Chosen;
  }

  lemma MoveEdit(s: State, c: Picking.Compaction, lo: Key, hi: Key, f: File, pointer: IKey, edit: Edit)
    requires Inv(s) && c.level < NUM_LEVELS - 1
    requires Picking.PickedOk(s.version[c.level], s.version[c.level + 1], c, lo, hi)
    requires c.inputs0 == [f] && c.inputs1 == []
    requires edit == NONE.(deleted := {(c.level, f.number)}, added := [(c.level + 1, f)],
                           compactPointers := [(c.level, pointer)])
    ensures EditOk(edit) && Installable(s.version, edit) && AddsDistinct(edit)
    ensures forall l, g :: AddsFile(edit, l, g) <==> l == c.level + 1 && g == f
  {
    var v := s.version;
    PickedIsReplaceable(v, c, lo, hi);
    MoveOutputs(v, c, f);
    MoveInstallable(s, c, lo, hi, f, edit);
  }
}
