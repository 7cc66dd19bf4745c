/** Reading the log files back (db/db_impl.cc, Recover and RecoverLogFile). */
module Recovery {
  import opened Wrappers
  import opened Keys
  import opened Files
  import opened Store
  import opened Reopen
  import opened VersionSteps
  import opened Builder
  import opened Manifest
  import opened Installing
  import opened History
  import opened Splits
  import MemTable

  /** What the replay has built: a memtable, the tables already written, the next
      file number and the largest sequence number met. */
  datatype Replay = Replay(mem: seq<Entry>, tables: Level, nextFile: nat, maxSequence: nat)

  /** Entries in the order they were written. */
  ghost predicate Ascending(all: seq<Entry>)
  {
    && (forall i :: 0 <= i < |all| ==> 0 < all[i].seqno <= MAX_SEQUENCE)
    && (forall i, j :: 0 <= i < j < |all| ==> all[i].seqno < all[j].seqno)
  }

  /** The first `pos` entries of `all` are in the tables, chunk by chunk, and the
      memtable holds the last of them, `cur`. */
  ghost predicate Going(r: Replay, chunks: seq<seq<Entry>>, cur: seq<Entry>, all: seq<Entry>, pos: nat, first: nat)
  {
    && pos <= |all| && Flatten(chunks) + cur == all[..pos]
    && StrictlySorted(r.mem) && (forall e :: e in r.mem <==> e in cur) && r.mem == MemTable.MemOf(cur)
    && TablesFor(chunks, r.tables, first, r.nextFile) && first <= r.nextFile
    && r.maxSequence == if pos == 0 then 0 else all[pos - 1].seqno
  }

  /** InsertInto for one recovered record. */
  method InsertRecord(r0: Replay, record: Group, ghost chunks: seq<seq<Entry>>, ghost cur0: seq<Entry>,
                      ghost all: seq<Entry>, ghost pos: nat, ghost first: nat)
    returns (r: Replay, ghost cur: seq<Entry>)
    requires Ascending(all) && Going(r0, chunks, cur0, all, pos, first)
    requires pos + |record| <= |all| && all[pos..pos + |record|] == record
    ensures Going(r, chunks, cur, all, pos + |record|, first) && cur == cur0 + record
    ensures r.nextFile == r0.nextFile && r.tables == r0.tables
  {
    hide Going;
    hide Ascending;
    hide MemTable.Add;
    r, cur := r0, cur0;
    ghost var upTo := r0;
    assert cur0 + record[..0] == cur0;
    var i := 0;
    while i < |record|
      invariant 0 <= i <= |record| && r == upTo.(maxSequence := r0.maxSequence)
      invariant Going(upTo, chunks, cur, all, pos + i, first) && cur == cur0 + record[..i]
      invariant upTo.maxSequence == if i == 0 then r0.maxSequence else record[i - 1].seqno
      invariant r.nextFile == r0.nextFile && r.tables == r0.tables
    {
      assert all[pos + i] == all[pos..pos + |record|][i];
      InsertOne(upTo, chunks, cur, all, pos + i, first);
      upTo := upTo.(mem := MemTable.Add(r.mem, record[i]), maxSequence := record[i].seqno);
      r := r.(mem := MemTable.Add(r.mem, record[i]));
      cur := cur + [record[i]];
      assert record[..i + 1] == record[..i] + [record[i]];
      i := i + 1;
    }
    assert record[..|record|] == record;
    LargestIsLast(r0, record, chunks, cur0, all, pos, first);
    if record != [] {
      var lastSequence := record[|record| - 1].seqno;
      if lastSequence > r.maxSequence {
        r := r.(maxSequence := lastSequence);
      }
    }
  }

  /** One entry of a record goes into the memtable. */
  lemma InsertOne(r: Replay, chunks: seq<seq<Entry>>, cur: seq<Entry>, all: seq<Entry>, pos: nat, first: nat)
    requires Ascending(all) && Going(r, chunks, cur, all, pos, first) && pos < |all|
    ensures Going(r.(mem := MemTable.Add(r.mem, all[pos]), maxSequence := all[pos].seqno), chunks, cur + [all[pos]],
                  all, pos + 1, first)
  {
    MemGrows(r.mem, cur, chunks, all, pos);
    hide Ascending;
    hide StrictlySorted;
    hide TablesFor;
    hide MemTable.Add;
    hide MemTable.MemOf;
    hide Flatten;
  }

  /** The last entry of a record is the newest so far. */
  lemma LargestIsLast(r: Replay, record: Group, chunks: seq<seq<Entry>>, cur: seq<Entry>, all: seq<Entry>, pos: nat,
                      first: nat)
    requires Ascending(all) && Going(r, chunks, cur, all, pos, first)
    requires pos + |record| <= |all| && all[pos..pos + |record|] == record
    ensures record != [] ==> record[|record| - 1].seqno > r.maxSequence
  {
    if record != [] {
      assert record[|record| - 1] == all[pos + |record| - 1];
    }
  }

  lemma MemGrows(mem: seq<Entry>, cur: seq<Entry>, chunks: seq<seq<Entry>>, all: seq<Entry>, pos: nat)
    requires Ascending(all) && pos < |all| && Flatten(chunks) + cur == all[..pos]
    requires StrictlySorted(mem) && mem == MemTable.MemOf(cur) && forall e :: e in mem <==> e in cur
    ensures StrictlySorted(MemTable.Add(mem, all[pos]))
    ensures MemTable.Add(mem, all[pos]) == MemTable.MemOf(cur + [all[pos]])
    ensures forall e :: e in MemTable.Add(mem, all[pos]) <==> e in cur + [all[pos]]
    ensures Flatten(chunks) + (cur + [all[pos]]) == all[..pos + 1]
  {
    hide Flatten;
    forall x | x in mem
      ensures x.seqno != all[pos].seqno
    {
      var i :| 0 <= i < |cur| && cur[i] == x;
      assert all[..pos][|Flatten(chunks)| + i] == x;
    }
    assert (cur + [all[pos]])[..|cur|] == cur;
    MemTable.AddKeepsOrder(mem, all[pos]);
  }

  /** WriteLevel0Table without a base version: the table goes to level 0. */
  method FlushRecovered(r0: Replay, fileSize: seq<Entry> -> nat, ghost chunks0: seq<seq<Entry>>, ghost cur: seq<Entry>,
                        ghost all: seq<Entry>, ghost pos: nat, ghost first: nat)
    returns (r: Replay, ghost chunks: seq<seq<Entry>>)
    requires Ascending(all) && Going(r0, chunks0, cur, all, pos, first)
    ensures Going(r, chunks, [], all, pos, first) && r.mem == []
    ensures r.tables == r0.tables + TableOf(cur, r0.nextFile, fileSize) && r.nextFile == r0.nextFile + 1
  {
    var number := r0.nextFile;
    r := r0.(mem := [], nextFile := number + 1);
    chunks := chunks0;
    assert cur != [] ==> cur[0] in r0.mem;
    if r0.mem != [] {
      var f := TableFile(r0.mem, number, fileSize(r0.mem));
      RecoveredFileOk(r0, f, chunks0, cur, all, pos, first);
      r := r.(tables := r0.tables + [f]);
      chunks := chunks0 + [cur];
      FlattenAppend(chunks0, cur);
    }
  }

  lemma RecoveredFileOk(r: Replay, f: File, chunks: seq<seq<Entry>>, cur: seq<Entry>, all: seq<Entry>, pos: nat,
                        first: nat)
    requires Ascending(all) && Going(r, chunks, cur, all, pos, first) && r.mem != []
    requires f == File(r.nextFile, f.size, KeyOf(r.mem[0]), KeyOf(r.mem[|r.mem| - 1]), r.mem)
    ensures TablesFor(chunks + [cur], r.tables + [f], first, r.nextFile + 1)
  {
    forall e | e in r.mem
      ensures e.seqno <= MAX_SEQUENCE
    {
      assert e in Flatten(chunks) + cur;
      var i :| 0 <= i < pos && all[..pos][i] == e;
    }
    assert FileOk(f);
    forall i, e | 0 <= i < |r.tables + [f]|
      ensures e in (r.tables + [f])[i].entries <==> e in (chunks + [cur])[i]
    {
      if i < |r.tables| {
        assert e in r.tables[i].entries <==> e in chunks[i];
      }
    }
  }

  /** One log file: its records into memtables, each full memtable into a table. */
  method RecoverLogFile(r0: Replay, records: seq<Group>, full: seq<Entry> -> bool, fileSize: seq<Entry> -> nat,
                        ghost chunks0: seq<seq<Entry>>, ghost all: seq<Entry>, ghost pos: nat, ghost first: nat)
    returns (r: Replay, ghost chunks: seq<seq<Entry>>, ghost parts: seq<seq<Group>>)
    requires Ascending(all) && Going(r0, chunks0, [], all, pos, first) && r0.mem == []
    requires pos + |Flatten(records)| <= |all| && all[pos..pos + |Flatten(records)|] == Flatten(records)
    ensures Going(r, chunks, [], all, pos + |Flatten(records)|, first) && r.mem == []
    ensures LogFlushed(records, full, fileSize, r0.nextFile, parts, r0.tables, r.tables)
    ensures r.nextFile == r0.nextFile + |parts|
  {
    hide Going;
    hide Ascending;
    r, chunks, parts := r0, chunks0, [];
    var started := false;
    ghost var cur, open: seq<Group> := [], [];
    FileBegins(full, records, r0.tables, r0.nextFile, fileSize);
    hide SplitSoFar;
    hide SplitByMemTables;
    hide TablesOf;
    hide TableOf;
    hide Flatten;
    hide Fills;
    hide NotYetFull;
    hide MemTable.MemOf;
    var i := 0;
    while i < |records|
      invariant 0 <= i <= |records| && r.nextFile == r0.nextFile + |parts|
      invariant Offset(records, i) <= |Flatten(records)| && Going(r, chunks, cur, all, pos + Offset(records, i), first)
      invariant (started <==> open != []) && cur == EntriesOf(open) && (!started ==> r.mem == [])
      invariant SplitSoFar(full, records[..i], parts, open)
      invariant r.tables == r0.tables + TablesOf(parts, r0.nextFile, fileSize)
    {
      RecordInPlace(records, i, all, pos);
      r, cur := InsertRecord(r, records[i], chunks, cur, all, pos + Offset(records, i), first);
      started := true;
      RecordAdded(full, records, i, parts, open, r0.tables, r0.nextFile, fileSize);
      open := open + [records[i]];
      MemIs(r, chunks, cur, all, pos + Offset(records, i + 1), first);
      if full(r.mem) {
        r, chunks := FlushRecovered(r, fileSize, chunks, cur, all, pos + Offset(records, i + 1), first);
        parts := parts + [open];
        cur, started, open := [], false, [];
      }
      i := i + 1;
    }
    FileEnds(full, records, parts, open, r0.tables, r0.nextFile, fileSize);
    if started {
      r, chunks := FlushRecovered(r, fileSize, chunks, cur, all, pos + Offset(records, i), first);
      parts := parts + [open];
    }
  }

  lemma MemIs(r: Replay, chunks: seq<seq<Entry>>, cur: seq<Entry>, all: seq<Entry>, pos: nat, first: nat)
    requires Going(r, chunks, cur, all, pos, first)
    ensures r.mem == MemTable.MemOf(cur)
  {
  }

  lemma FileBegins(full: seq<Entry> -> bool, records: seq<Group>, before: Level, number: nat,
                   fileSize: seq<Entry> -> nat)
    ensures Offset(records, 0) == 0 && EntriesOf([]) == []
    ensures SplitSoFar(full, records[..0], [], []) && before == before + TablesOf([], number, fileSize)
  {
  }

  lemma RecordAdded(full: seq<Entry> -> bool, records: seq<Group>, i: nat, parts: seq<seq<Group>>, open: seq<Group>,
                    before: Level, number: nat, fileSize: seq<Entry> -> nat)
    requires i < |records| && SplitSoFar(full, records[..i], parts, open)
    ensures var more := open + [records[i]];
      && EntriesOf(more) == EntriesOf(open) + records[i]
      && (if full(MemTable.MemOf(EntriesOf(more))) then SplitSoFar(full, records[..i + 1], parts + [more], [])
          else SplitSoFar(full, records[..i + 1], parts, more))
      && before + TablesOf(parts + [more], number, fileSize)
        == before + TablesOf(parts, number, fileSize) + TableOf(EntriesOf(more), number + |parts|, fileSize)
  {
    hide SplitSoFar;
    hide TablesOf;
    hide TableOf;
    assert records[..i + 1] == records[..i] + [records[i]];
    RecordSplit(full, records[..i], parts, open, records[i]);
    FlattenAppend(open, records[i]);
    TablesMore(parts, open + [records[i]], number, fileSize);
  }

  lemma FileEnds(full: seq<Entry> -> bool, records: seq<Group>, parts: seq<seq<Group>>, open: seq<Group>,
                 before: Level, number: nat, fileSize: seq<Entry> -> nat)
    requires SplitSoFar(full, records[..|records|], parts, open)
    ensures Offset(records, |records|) == |Flatten(records)|
    ensures SplitByMemTables(full, records, if open == [] then parts else parts + [open])
    ensures before + TablesOf(parts + [open], number, fileSize)
      == before + TablesOf(parts, number, fileSize) + TableOf(EntriesOf(open), number + |parts|, fileSize)
  {
    hide SplitSoFar;
    hide SplitByMemTables;
    hide TablesOf;
    hide TableOf;
    assert records[..|records|] == records;
    AllSplit(full, records, parts, open);
    TablesMore(parts, open, number, fileSize);
  }

  lemma RecordInPlace(records: seq<Group>, i: nat, all: seq<Entry>, pos: nat)
    requires i < |records|
    requires pos + |Flatten(records)| <= |all| && all[pos..pos + |Flatten(records)|] == Flatten(records)
    ensures Offset(records, i + 1) == Offset(records, i) + |records[i]| <= |Flatten(records)|
    ensures all[pos + Offset(records, i)..pos + Offset(records, i) + |records[i]|] == records[i]
  {
    assert records[..i + 1] == records[..i] + [records[i]];
    FlattenAppend(records[..i], records[i]);
    FlattenPrefix(records, i + 1);
    var off := Offset(records, i);
    forall a | 0 <= a < |records[i]|
      ensures all[pos + off + a] == records[i][a]
    {
      FlattenAt(records, i, a);
      assert all[pos + off + a] == all[pos..pos + |Flatten(records)|][off + a];
    }
  }

  lemma {:induction false} FlattenPrefix(records: seq<Group>, i: nat)
    requires i <= |records|
    ensures Offset(records, i) <= |Flatten(records)|
    decreases |records|
  {
    if i == |records| {
      assert records[..i] == records;
    } else {
      var init := records[..|records| - 1];
      FlattenPrefix(init, i);
      assert init[..i] == records[..i];
    }
  }

  /** Replay the chosen log files in order. */
  method RecoverLogs(logs: map<nat, seq<Group>>, order: seq<nat>, full: seq<Entry> -> bool, fileSize: seq<Entry> -> nat,
                     firstFile: nat, ghost all: seq<Entry>, ghost first: nat)
    returns (tables: Level, nextFile: nat, maxSequence: nat, ghost chunks: seq<seq<Entry>>)
    requires (forall n :: n in order ==> n in logs) && Ascending(all) && Replayed(logs, order) == all
    requires first <= firstFile
    ensures Flatten(chunks) == all && TablesFor(chunks, tables, first, nextFile) && nextFile >= firstFile
    ensures LogsFlushed(logs, order, full, fileSize, firstFile, tables, nextFile)
    ensures forall n :: n in order ==> n < nextFile
    ensures maxSequence == if all == [] then 0 else all[|all| - 1].seqno
  {
    hide Replayed;
    hide Flatten;
    hide TablesFor;
    hide LogFlushed;
    hide LogsFlushed;
    hide Ascending;
    hide Going;
    var r := Replay([], [], firstFile, 0);
    chunks := [];
    ghost var pos: nat := 0;
    ReplayStart(logs, order, r, all, first, full, fileSize);
    var i := 0;
    while i < |order|
      invariant 0 <= i <= |order| && pos <= |all| && Going(r, chunks, [], all, pos, first)
      invariant r.mem == [] && r.nextFile >= firstFile
      invariant Replayed(logs, order[..i]) == all[..pos]
      invariant forall j :: 0 <= j < i ==> order[j] < r.nextFile
      invariant LogsFlushed(logs, order[..i], full, fileSize, firstFile, r.tables, r.nextFile)
    {
      NextLog(logs, order, i, all, pos);
      ghost var before, parts := r, [];
      r, chunks, parts := RecoverLogFile(r, logs[order[i]], full, fileSize, chunks, all, pos, first);
      pos := pos + |Flatten(logs[order[i]])|;
      UseNumber(r, chunks, all, pos, first, order[i]);
      r := r.(nextFile := MarkUsed(r.nextFile, order[i]));
      LogDone(logs, order, i, full, fileSize, firstFile, before.tables, before.nextFile, parts, r.tables, r.nextFile);
      i := i + 1;
    }
    assert order[..i] == order;
    assert all == all[..pos] && |all[..pos]| == pos;
    ReplayEnd(r, chunks, all, pos, first);
    return r.tables, r.nextFile, r.maxSequence, chunks;
  }

  lemma LogDone(logs: map<nat, seq<Group>>, order: seq<nat>, i: nat, full: seq<Entry> -> bool,
                fileSize: seq<Entry> -> nat, firstFile: nat, before: Level, number: nat, parts: seq<seq<Group>>,
                tables: Level, nextFile: nat)
    requires (forall n :: n in order ==> n in logs) && i < |order|
    requires LogsFlushed(logs, order[..i], full, fileSize, firstFile, before, number)
    requires LogFlushed(logs[order[i]], full, fileSize, number, parts, before, tables)
    requires nextFile == MarkUsed(number + |parts|, order[i])
    ensures LogsFlushed(logs, order[..i + 1], full, fileSize, firstFile, tables, nextFile)
  {
    hide LogFlushed;
    assert order[..i + 1][..i] == order[..i] && order[..i + 1][i] == order[i];
  }

  lemma ReplayEnd(r: Replay, chunks: seq<seq<Entry>>, all: seq<Entry>, pos: nat, first: nat)
    requires Going(r, chunks, [], all, pos, first) && pos == |all|
    ensures Flatten(chunks) == all && TablesFor(chunks, r.tables, first, r.nextFile)
    ensures r.maxSequence == if all == [] then 0 else all[|all| - 1].seqno
  {
    assert all[..pos] == all && Flatten(chunks) + [] == Flatten(chunks);
  }

  lemma ReplayStart(logs: map<nat, seq<Group>>, order: seq<nat>, r: Replay, all: seq<Entry>, first: nat,
                    full: seq<Entry> -> bool, fileSize: seq<Entry> -> nat)
    requires r.mem == [] && r.tables == [] && r.maxSequence == 0 && first <= r.nextFile
    requires forall n :: n in order ==> n in logs
    ensures Going(r, [], [], all, 0, first) && Replayed(logs, order[..0]) == all[..0]
    ensures LogsFlushed(logs, order[..0], full, fileSize, r.nextFile, r.tables, r.nextFile)
  {
  }

  lemma UseNumber(r: Replay, chunks: seq<seq<Entry>>, all: seq<Entry>, pos: nat, first: nat, n: nat)
    requires Going(r, chunks, [], all, pos, first)
    ensures Going(r.(nextFile := MarkUsed(r.nextFile, n)), chunks, [], all, pos, first)
  {
  }

  lemma NextLog(logs: map<nat, seq<Group>>, order: seq<nat>, i: nat, all: seq<Entry>, pos: nat)
    requires (forall n :: n in order ==> n in logs) && i < |order| && pos <= |all|
    requires Replayed(logs, order) == all && Replayed(logs, order[..i]) == all[..pos]
    ensures var log := Flatten(logs[order[i]]);
      && pos + |log| <= |all| && all[pos..pos + |log|] == log && Replayed(logs, order[..i + 1]) == all[..pos + |log|]
  {
    var log := Flatten(logs[order[i]]);
    ReplayedPrefix(logs, order, i + 1);
    assert order[..i + 1][..i] == order[..i];
    assert Replayed(logs, order[..i + 1]) == all[..pos] + log;
    assert all[..pos + |log|] == all[..pos] + log;
    assert all[pos..pos + |log|] == all[..pos + |log|][pos..];
  }

  lemma {:induction false} ReplayedPrefix(logs: map<nat, seq<Group>>, order: seq<nat>, i: nat)
    requires (forall n :: n in order ==> n in logs) && i <= |order|
    ensures Replayed(logs, order[..i]) <= Replayed(logs, order)
    decreases |order|
  {
    if i == |order| {
      assert order[..i] == order;
    } else {
      var init := order[..|order| - 1];
      ReplayedPrefix(logs, init, i);
      assert init[..i] == order[..i];
    }
  }

  /** The log files at or past the recorded log number, oldest first. */
  method LogsInOrder(logs: map<nat, seq<Group>>, minLog: nat, prevLog: nat) returns (order: seq<nat>)
    ensures Increasing(order) && forall n :: n in order <==> n in logs && (n >= minLog || n == prevLog)
  {
    var left: set<nat> := set n: nat | n in logs && (n >= minLog || n == prevLog);
    order := [];
    while left != {}
      invariant Increasing(order)
      invariant forall n :: n in logs && (n >= minLog || n == prevLog) <==> n in order || n in left
      invariant forall n :: n in order ==> n !in left
      decreases |left|
    {
      var n: nat :| n in left;
      order := InsertNumber(order, n);
      left := left - {n};
    }
  }

  method InsertNumber(order: seq<nat>, n: nat) returns (r: seq<nat>)
    requires Increasing(order) && n !in order
    ensures Increasing(r) && forall x :: x in r <==> x in order || x == n
  {
    var i := 0;
    while i < |order| && order[i] < n
      invariant 0 <= i <= |order| && forall j :: 0 <= j < i ==> order[j] < n
    {
      i := i + 1;
    }
    assert i < |order| ==> order[i] in order;
    assert order == order[..i] + order[i..];
    r := order[..i] + [n] + order[i..];
  }

  /** What survives a crash determines the state DB::Open comes up in. */
  ghost predicate Reopened(s: State, t: State)
    requires RecordedOk(s)
  {
    exists order, chunks, tables, snapshot, e, next, newLog ::
      ReopenStep(s, t, order, chunks, tables, snapshot, e, next, newLog)
  }

  lemma ReopenedInv(s: State, t: State)
    requires Inv(s) && RecordedOk(s) && Reopened(s, t)
    ensures Inv(t) && Visible(t) == Writes(s) && t.groups == s.groups
  {
    hide Inv;
    hide ReopenStep;
    var order, chunks, tables, snapshot, e, next, newLog :|
      ReopenStep(s, t, order, chunks, tables, snapshot, e, next, newLog);
    ReopenInv(s, t, order, chunks, tables, snapshot, e, next, newLog);
  }

  /** What is known of the durable state before any of it is read. */
  lemma DurableFacts(s: State)
    requires Inv(s)
    ensures RecordedOk(s) && s.manifest != [] && s.history != [] && s.version == s.history[|s.history| - 1]
    ensures forall i :: 0 <= i < |s.manifest| ==> EditOk(s.manifest[i])
    ensures NeverAddedTwice(s.manifest)
    ensures IsHistory(s.history, s.manifest[1..]) && IsSnapshot(s.manifest[0], s.history[0])
    ensures forall l :: 0 <= l < NUM_LEVELS ==> |s.history[0]| == NUM_LEVELS && SortedBySmallest(s.history[0][l])
    ensures forall i :: 0 <= i < |s.history| ==> |s.history[i]| == NUM_LEVELS
    ensures FilesDistinct(s.version)
  {
    hide VersionOk;
    hide Represents;
    hide Holds;
    hide LogsOk;
    hide RunningOk;
    CurrentFilesDistinct(s.version);
  }

  lemma CurrentFilesDistinct(v: Version)
    requires VersionOk(v) && NumbersDistinct(v)
    ensures FilesDistinct(v)
  {
    forall l, f, g | 0 < l < NUM_LEVELS && f in v[l] && g in v[l] && f != g
      ensures f.largest.user < g.smallest.user || g.largest.user < f.smallest.user
    {
      PairDisjoint(v[l], f, g);
    }
    forall l, f | 0 <= l < NUM_LEVELS && f in v[l]
      ensures f.smallest.user <= f.largest.user
    {
      assert FileOk(f);
      EntryInRange(f, f.entries[0]);
    }
  }

  /** The entries the logs will give back, in the order they were written. */
  lemma LogFacts(s: State, order: seq<nat>)
    requires Inv(s) && LogsToReplay(s, order)
    ensures Ascending(Replayed(s.logs, order)) && s.logNumber in order
    ensures LastSet(s.manifest, NextFileOf).Some? && LastSet(s.manifest, LogNumberOf) == Some(s.logNumber)
    ensures LastSet(s.manifest, LastSequenceOf).Some?
  {
    hide VersionOk;
    hide ManifestOk;
    hide NumbersOk;
    hide RunningOk;
    hide Represents;
    ReplayIsTheTail(s, order);
  }

  /** VersionSet::Recover, DBImpl::Recover and the rest of DB::Open. */
  method ReopenFrom(ghost s: State, comparator: seq<Byte>, manifest: seq<Edit>, logs: map<nat, seq<Group>>,
                    full: seq<Entry> -> bool, fileSize: seq<Entry> -> nat)
    returns (snapshot: Edit, e: Edit, next: Version, newPointers: seq<Option<IKey>>)
    requires Inv(s) && s.manifest == manifest && s.logs == logs
    ensures |newPointers| == NUM_LEVELS && e.logNumber.Some? && e.nextFile.Some? && e.lastSequence.Some?
    ensures RecordedOk(s) && Reopened(s, Fresh(s, snapshot, e, next))
    ensures Rewritten(s, comparator, full, fileSize, snapshot, e, newPointers)
  {
    hide Inv;
    hide Replayed;
    hide NeverAddedTwice;
    hide FilesDistinct;
    hide Ascending;
    hide TablesFor;
    hide EditOk;
    hide IsHistory;
    hide IsSnapshot;
    hide SortedBySmallest;
    hide LastSet;
    hide PointersInRange;
    hide LogsFlushed;
    DurableFacts(s);
    var recovered := Manifest.Recover(manifest, s.history);
    var base := recovered.value;
    var order := LogsInOrder(logs, base.logNumber, base.prevLogNumber);
    LogFacts(s, order);
    var firstFile := MarkUsed(MarkUsed(2, base.prevLogNumber), base.logNumber);
    firstFile := base.nextFile + 1;  // as in the source, where this undoes the marks
    ghost var all := Replayed(logs, order);
    var tables, newLog, maxSequence;
    ghost var chunks;
    tables, newLog, maxSequence, chunks := RecoverLogs(logs, order, full, fileSize, firstFile, all, FirstFile(s));
    var sequence := if base.lastSequence < maxSequence then maxSequence else base.lastSequence;
    snapshot := WriteSnapshot(comparator, base.pointers, base.version);
    e, next, newPointers := RecoveredVersion(s, base.version, base.pointers, tables, newLog, sequence, chunks);
    assert ReopenStep(s, Fresh(s, snapshot, e, next), order, chunks, tables, snapshot, e, next, newLog);
    assert LogsFlushed(s.logs, order, full, fileSize, FirstFile(s) + 1, tables, e.logNumber.value);
  }

  /** What the new manifest says: the comparator, the recovered pointers, and one
      table for each memtable the logs filled, numbered past everything recorded. */
  ghost predicate Rewritten(s: State, comparator: seq<Byte>, full: seq<Entry> -> bool, fileSize: seq<Entry> -> nat,
                            snapshot: Edit, e: Edit, pointers: seq<Option<IKey>>)
    requires RecordedOk(s) && e.logNumber.Some?
  {
    && snapshot.comparator == Some(comparator) && PointsTo(snapshot, pointers)
    && PointersInRange(s.manifest) && pointers == PointersOf(s.manifest)
    && e.comparator.None? && e.compactPointers == []
    && exists order, tables ::
      && LogsToReplay(s, order) && e.added == AtLevelZero(tables)
      && LogsFlushed(s.logs, order, full, fileSize, FirstFile(s) + 1, tables, e.logNumber.value)
  }

  function AtLevelZero(tables: Level): (added: seq<(nat, File)>)
    ensures |added| == |tables| && forall i :: 0 <= i < |tables| ==> added[i] == (0, tables[i])
  {
    seq(|tables|, i requires 0 <= i < |tables| => (0, tables[i]))
  }

  method RecoveredVersion(ghost s: State, version: Version, pointers: seq<Option<IKey>>, tables: Level, newLog: nat,
                          sequence: nat, ghost chunks: seq<seq<Entry>>)
    returns (e: Edit, next: Version, newPointers: seq<Option<IKey>>)
    requires Inv(s) && s.version == version && |pointers| == NUM_LEVELS
    requires LastSet(s.manifest, NextFileOf).Some?
    requires TablesFor(chunks, tables, LastSet(s.manifest, NextFileOf).value, newLog)
    ensures |newPointers| == NUM_LEVELS && newPointers == pointers
    ensures e.comparator.None? && e.compactPointers == [] && e.added == AtLevelZero(tables)
    ensures RecoveryEdit(version, tables, e, newLog, sequence, next)
  {
    hide Inv;
    hide Installable;
    hide AddsDistinct;
    hide TablesFor;
    var edit := NONE.(logNumber := Some(newLog), prevLogNumber := Some(0), added := AtLevelZero(tables));
    RecoveryInstallable(s, tables, newLog, chunks, edit);
    e := Stamp(edit, newLog, newLog + 1, sequence);
    SameKept(version, edit, e);
    next, newPointers := BuildVersion(version, pointers, e);
    AddsTables(tables, e);
  }

  lemma AddsTables(tables: Level, e: Edit)
    requires |e.added| == |tables| && forall i :: 0 <= i < |tables| ==> e.added[i] == (0, tables[i])
    ensures forall l, g :: AddsFile(e, l, g) <==> l == 0 && g in tables
  {
    forall g | g in tables
      ensures AddsFile(e, 0, g)
    {
      var i :| 0 <= i < |tables| && tables[i] == g;
      assert e.added[i] == (0, g);
    }
  }

  lemma RecoveryInstallable(s: State, tables: Level, newLog: nat, chunks: seq<seq<Entry>>, e: Edit)
    requires Inv(s) && LastSet(s.manifest, NextFileOf).Some?
    requires TablesFor(chunks, tables, LastSet(s.manifest, NextFileOf).value, newLog)
    requires |e.added| == |tables| && forall i :: 0 <= i < |tables| ==> e.added[i] == (0, tables[i])
    requires e.deleted == {} && e.compactPointers == []
    ensures |s.version| == NUM_LEVELS && EditOk(e) && Installable(s.version, e) && AddsDistinct(e)
  {
    hide ManifestOk;
    hide LogsOk;
    hide RunningOk;
    hide WritesOk;
    hide Holds;
    hide Represents;
    AddsTables(tables, e);
    TablesDistinct(tables);
    TablesInstallable(s.version, tables, LastSet(s.manifest, NextFileOf).value, e);
  }

  /** New tables have numbers past every file's, and level 0 may overlap. */
  lemma TablesInstallable(v: Version, tables: Level, first: nat, e: Edit)
    requires VersionOk(v) && NumbersDistinct(v) && FilesOk(tables) && e.deleted == {}
    requires forall l, f :: 0 <= l < NUM_LEVELS && f in v[l] ==> f.number < first
    requires forall f :: f in tables ==> f.number >= first
    requires forall f, g :: f in tables && g in tables ==> f.number == g.number ==> f == g
    requires forall l, g :: AddsFile(e, l, g) <==> l == 0 && g in tables
    ensures Installable(v, e) && AddsDistinct(e)
  {
    CurrentFilesDistinct(v);
    forall l, g | 0 <= l < NUM_LEVELS
      ensures Keeps(v, e, l, g) <==> g in v[l] || (l == 0 && g in tables)
    {
      assert !Removes(e, l, g.number);
    }
    forall f | f in tables
      ensures f.smallest.user <= f.largest.user
    {
      assert FileOk(f);
      EntryInRange(f, f.entries[0]);
    }
    forall l | 0 < l < NUM_LEVELS
      ensures PairwiseDisjoint(KeptSet(v, e, l))
    {
      assert KeptSet(v, e, l) == iset f | f in v[l];
    }
  }
}
