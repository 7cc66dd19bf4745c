/** Every run of the store: what is invariant, and what a read returns. */
module Runs {
  import opened Wrappers
  import opened Keys
  import opened Files
  import opened VersionSteps
  import opened VersionGet
  import opened History
  import opened Builder
  import opened Store
  import opened Reopen
  import Picking
  import MemTable

  /** The steps of the store.  Nothing says when: any step that is enabled may
      come next, so flushes, compactions, inserts and crashes mix freely. */
  datatype Label =
    | Log(ops: seq<(Key, Op)>)
    | Insert
    | PublishGroup
    | Switch
    | NewFileNumber
    | Flush(level: nat, file: Option<File>, edit: Edit, next: Version)
    | StartCompaction(c: Picking.Compaction, lo: Key, hi: Key)
    | TrivialMove(c: Picking.Compaction, lo: Key, hi: Key, moved: File, edit: Edit, next: Version)
    | FinishCompaction(merged: seq<Entry>, outputs: Level, numbers: set<nat>, edit: Edit, next: Version)
    | AbandonCompaction(dropped: set<nat>)
    | DeleteObsoleteLogs
    | CrashAndReopen(order: seq<nat>, chunks: seq<seq<Entry>>, tables: Level, snapshot: Edit, edit: Edit,
                     next: Version, newLog: nat)

  ghost predicate Step(s: State, a: Label, t: State)
  {
    match a
    case Log(ops) =>
      Idle(s) && s.logFile in s.logs && |Writes(s)| + |ops| < MAX_SEQUENCE && t == LogGroup(s, ops)
    case Insert => s.inserted < |Writes(s)| && t == InsertOne(s)
    case PublishGroup => s.inserted == |Writes(s)| && t == Publish(s)
    case Switch => Idle(s) && s.imm.None? && t == SwitchMem(s)
    case NewFileNumber => t == Alloc(s)
    case Flush(level, file, e, next) => FlushStep(s, t, level, file, e, next)
    case StartCompaction(c, lo, hi) => StartStep(s, t, c, lo, hi)
    case TrivialMove(c, lo, hi, f, e, next) => MoveStep(s, t, c, lo, hi, f, e, next)
    case FinishCompaction(merged, outputs, numbers, e, next) => FinishStep(s, t, merged, outputs, numbers, e, next)
    case AbandonCompaction(numbers) => t == Abandon(s, numbers)
    case DeleteObsoleteLogs => DeleteLogsStep(s, t)
    case CrashAndReopen(order, chunks, tables, snapshot, e, next, newLog) =>
      RecordedOk(s) && ReopenStep(s, t, order, chunks, tables, snapshot, e, next, newLog)
  }

  /** A database just created and opened: one empty log, an empty version. */
  ghost predicate Initial(s: State)
  {
    && s.groups == [] && s.published == 0
    && s.flushed == s.memStart == s.inserted == s.lastSequence == 0
    && s.mem == [] && s.imm.None? && s.running.None? && s.pending == {}
    && s.version == seq(NUM_LEVELS, i => [])
    && 0 < s.logNumber == s.logFile < s.nextFile && s.logs == map[s.logFile := []]
    && s.history == [s.version, s.version] && |s.manifest| == 2
    && IsSnapshotRecord(s.manifest[0], s.version)
    && RecoveryEdit(s.version, [], s.manifest[1], s.logFile, 0, s.version) && s.nextFile == s.logFile + 1
  }

  lemma InitialInv(s: State)
    requires Initial(s)
    ensures Inv(s)
  {
    EmptyVersion(s.version);
    InitialManifest(s);
    assert s.groups[..s.published] == [];
    ReopenRecorded(s, s, s.manifest[0], s.manifest[1], s.version);
    assert s.manifest == [s.manifest[0], s.manifest[1]];
  }

  lemma EmptyVersion(v: Version)
    requires v == seq(NUM_LEVELS, i => [])
    ensures VersionOk(v) && Represents(v, [], 0) && NumbersDistinct(v)
  {
    assert forall x :: !InVersion(v, x);
  }

  lemma InitialManifest(s: State)
    requires Initial(s)
    ensures ManifestOk(s) && NumbersOk(s)
  {
    var snapshot, e := s.manifest[0], s.manifest[1];
    EmptyVersion(s.version);
    assert s.manifest == [snapshot, e];
    assert s.manifest[1..] == [e];
    assert forall l: nat, f :: !AddsFile(snapshot, l, f) && !AddsFile(e, l, f);
    TwoRecords(snapshot, e);
    forall l: nat, n: nat
      ensures !AddedAt(s.manifest, l, n)
    {
      if AddedAt(s.manifest, l, n) {
        AddedInRecovery(s.version, [], snapshot, e, l, n);
        assert false;
      }
    }
  }

  /** One step keeps the invariant, whatever the step. */
  lemma StepInv(s: State, a: Label, t: State)
    requires Inv(s) && Step(s, a, t)
    ensures Inv(t)
  {
    hide Inv;
    hide FlushStep;
    hide StartStep;
    hide MoveStep;
    hide FinishStep;
    hide ReopenStep;
    match a
    case Log(ops) => LogGroupInv(s, ops);
    case Insert => InsertOneInv(s);
    case PublishGroup => PublishInv(s);
    case Switch => SwitchMemInv(s);
    case NewFileNumber => AllocInv(s);
    case Flush(level, file, e, next) => FlushInv(s, t, level, file, e, next);
    case StartCompaction(c, lo, hi) => StartInv(s, t, c, lo, hi);
    case TrivialMove(c, lo, hi, f, e, next) => MoveInv(s, t, c, lo, hi, f, e, next);
    case FinishCompaction(merged, outputs, numbers, e, next) => FinishInv(s, t, merged, outputs, numbers, e, next);
    case AbandonCompaction(numbers) => AbandonInv(s, numbers);
    case DeleteObsoleteLogs => DeleteLogsInv(s, t);
    case CrashAndReopen(order, chunks, tables, snapshot, e, next, newLog) =>
      ReopenInv(s, t, order, chunks, tables, snapshot, e, next, newLog);
  }

  /** Only publishing a group, or a crash that cuts one short of it, changes what
      readers see; every other step is invisible. */
  lemma StepVisible(s: State, a: Label, t: State)
    requires Inv(s) && Step(s, a, t)
    ensures match a
      case PublishGroup => Visible(t) == Writes(s)
      case CrashAndReopen(_, _, _, _, _, _, _) => Visible(t) == Writes(s)
      case _ => Visible(t) == Visible(s)
  {
    hide FlushStep;
    hide StartStep;
    hide MoveStep;
    hide FinishStep;
    hide ReopenStep;
    match a
    case Log(ops) =>
      GroupNumbers(s, ops);
      assert t.groups[..s.published] == s.groups[..s.published];
    case PublishGroup => PublishInv(s);
    case Flush(level, file, e, next) => FlushInv(s, t, level, file, e, next);
    case StartCompaction(c, lo, hi) => StartInv(s, t, c, lo, hi);
    case TrivialMove(c, lo, hi, f, e, next) => MoveInv(s, t, c, lo, hi, f, e, next);
    case FinishCompaction(merged, outputs, numbers, e, next) => FinishInv(s, t, merged, outputs, numbers, e, next);
    case CrashAndReopen(order, chunks, tables, snapshot, e, next, newLog) =>
      ReopenInv(s, t, order, chunks, tables, snapshot, e, next, newLog);
    case _ =>
  }

  ghost predicate IsRun(states: seq<State>, labels: seq<Label>)
  {
    && |states| == |labels| + 1 && Initial(states[0])
    && forall i :: 0 <= i < |labels| ==> Step(states[i], labels[i], states[i + 1])
  }

  lemma {:induction false} RunInv(states: seq<State>, labels: seq<Label>, n: nat)
    requires IsRun(states, labels) && n < |states|
    ensures Inv(states[n])
  {
    hide Inv;
    hide Step;
    hide Initial;
    if n == 0 {
      InitialInv(states[0]);
    } else {
      RunInv(states, labels, n - 1);
      StepInv(states[n - 1], labels[n - 1], states[n]);
    }
  }

  /** The answer a version gives for a key at a snapshot. */
  ghost predicate VersionGives(v: Version, k: Key, snapshot: nat, r: GetResult)
  {
    && (r.Found? ==> exists e: Entry :: e.user == k && NewestVisible(v, snapshot, e) && e.op == Put(r.value))
    && (r.NotFound? ==> forall e: Entry :: e.user == k && NewestVisible(v, snapshot, e) ==> e.op.Delete?)
  }

  /** DBImpl::Get: the memtable, then the immutable one, then the version. */
  ghost predicate Gives(mem: seq<Entry>, imm: Option<seq<Entry>>, v: Version, k: Key, snapshot: nat, r: GetResult)
  {
    if SeekUser(mem, k, snapshot).Some? then r == ResultOf(SeekUser(mem, k, snapshot).value)
    else if imm.Some? && SeekUser(imm.value, k, snapshot).Some? then
      r == ResultOf(SeekUser(imm.value, k, snapshot).value)
    else VersionGives(v, k, snapshot, r)
  }

  /** A read returns the last visible write.  The reader may have taken its
      references long ago: `later` is its memtable as it is now, after other
      writers went on inserting. */
  lemma GetCorrect(s: State, later: seq<Entry>, k: Key, r: GetResult)
    requires Inv(s) && StrictlySorted(later)
    requires forall x :: x in s.mem ==> x in later
    requires forall x :: x in later && x !in s.mem ==> x.seqno > s.lastSequence
    requires forall x, y :: x in later && y in later && x.seqno == y.seqno ==> x == y
    requires Gives(later, s.imm, s.version, k, s.lastSequence, r)
    ensures r == Expected(Visible(s), k)
  {
    MemTable.NewerEntriesUnseen(s.mem, later, k, s.lastSequence);
    LayersAnswer(s, k, r);
    VisiblePrefix(s);
  }

  lemma GetNow(s: State, k: Key, r: GetResult)
    requires Inv(s) && Gives(s.mem, s.imm, s.version, k, s.lastSequence, r)
    ensures s.published <= |s.groups| && r == Expected(Visible(s), k)
  {
    LayersAnswer(s, k, r);
    VisiblePrefix(s);
  }

  lemma VisiblePrefix(s: State)
    requires WritesOk(s)
    ensures Visible(s) == Writes(s)[..s.lastSequence]
  {
    if Idle(s) {
      assert s.groups[..s.published] == s.groups;
    } else {
      assert s.groups[..s.published] == s.groups[..|s.groups| - 1];
    }
  }

  lemma LayersAnswer(s: State, k: Key, r: GetResult)
    requires WritesOk(s) && TablesOk(s) && Gives(s.mem, s.imm, s.version, k, s.lastSequence, r)
    ensures r == Expected(Writes(s)[..s.lastSequence], k)
  {
    var w, snap := Writes(s), s.lastSequence;
    if SeekUser(s.mem, k, snap).Some? {
      TableHit(s.mem, w, s.memStart, s.inserted, k, snap);
    } else {
      TableMiss(s.mem, w, s.memStart, s.inserted, k, snap);
      ImmAnswers(s, k, r);
    }
  }

  lemma ImmAnswers(s: State, k: Key, r: GetResult)
    requires WritesOk(s) && TablesOk(s) && Gives(s.mem, s.imm, s.version, k, s.lastSequence, r)
    requires SeekUser(s.mem, k, s.lastSequence).None?
    ensures r == Expected(Writes(s)[..s.memStart], k)
  {
    var w := Writes(s);
    if s.imm.Some? {
      SameBelow(s.imm.value, w, s.flushed, s.memStart, k, s.lastSequence);
      if SeekUser(s.imm.value, k, s.lastSequence).Some? {
        TableHit(s.imm.value, w, s.flushed, s.memStart, k, s.memStart);
      } else {
        TableMiss(s.imm.value, w, s.flushed, s.memStart, k, s.memStart);
        VersionAnswers(s.version, w, s.flushed, k, s.lastSequence, r);
      }
    } else {
      VersionAnswers(s.version, w, s.flushed, k, s.lastSequence, r);
    }
  }

  /** A table with nothing past `n` answers alike at every snapshot from `n` on. */
  lemma SameBelow(mem: seq<Entry>, w: seq<Entry>, from: nat, n: nat, k: Key, snapshot: nat)
    requires Holds(mem, w, from, n) && n <= snapshot
    ensures SeekUser(mem, k, snapshot) == SeekUser(mem, k, n)
  {
    SeekUserFindsNewest(mem, k, snapshot);
    SeekUserFindsNewest(mem, k, n);
  }

  /** Over every run, every read returns what the visible groups left behind. */
  lemma RunReads(states: seq<State>, labels: seq<Label>, n: nat, k: Key, r: GetResult)
    requires IsRun(states, labels) && n < |states|
    requires Gives(states[n].mem, states[n].imm, states[n].version, k, states[n].lastSequence, r)
    ensures states[n].published <= |states[n].groups|
    ensures r == Expected(Flatten(states[n].groups[..states[n].published]), k)
  {
    RunInv(states, labels, n);
    GetNow(states[n], k, r);
  }

  /** After any run, a crash and a reopen bring back exactly the groups whose log
      records were complete, each once, and reads answer from them. */
  lemma CrashLosesNothing(states: seq<State>, labels: seq<Label>, t: State, order: seq<nat>, chunks: seq<seq<Entry>>,
                          tables: Level, snapshot: Edit, e: Edit, next: Version, newLog: nat, k: Key, r: GetResult)
    requires IsRun(states, labels)
    requires Step(states[|labels|], CrashAndReopen(order, chunks, tables, snapshot, e, next, newLog), t)
    requires Gives(t.mem, t.imm, t.version, k, t.lastSequence, r)
    ensures t.groups == states[|labels|].groups && t.published == |t.groups|
    ensures r == Expected(Flatten(states[|labels|].groups), k)
  {
    RunInv(states, labels, |labels|);
    ReopenInv(states[|labels|], t, order, chunks, tables, snapshot, e, next, newLog);
    GetNow(t, k, r);
  }
}
