/** How the records of the recovered logs are split into tables (db/db_impl.cc,
    Recover and RecoverLogFile). */
module Splits {
  import opened Keys
  import opened Files
  import opened Store
  import MemTable

  /** The entries of some records, in order. */
  function EntriesOf(records: seq<Group>): seq<Entry>
  {
    Flatten(records)
  }

  /** The records of one log, part by part: each part but the last fills a memtable,
      and none fills it before its last record. */
  ghost predicate SplitByMemTables(full: seq<Entry> -> bool, records: seq<Group>, parts: seq<seq<Group>>)
  {
    && Flatten(parts) == records && (forall j :: 0 <= j < |parts| ==> Fills(full, parts[j]))
    && (forall j :: 0 <= j < |parts| - 1 ==> full(MemTable.MemOf(EntriesOf(parts[j]))))
  }

  /** A part is not empty and its memtable is not full before the last record. */
  ghost predicate Fills(full: seq<Entry> -> bool, part: seq<Group>)
  {
    part != [] && NotYetFull(full, part[..|part| - 1])
  }

  ghost predicate NotYetFull(full: seq<Entry> -> bool, part: seq<Group>)
  {
    forall n :: 0 < n <= |part| ==> !full(MemTable.MemOf(EntriesOf(part[..n])))
  }

  /** The table for one memtable, if there is anything in it. */
  function TableOf(writes: seq<Entry>, number: nat, fileSize: seq<Entry> -> nat): Level
  {
    var mem := MemTable.MemOf(writes);
    if writes == [] then [] else [TableFile(mem, number, fileSize(mem))]
  }

  /** The tables for the parts of a log; every part takes a number. */
  function TablesOf(parts: seq<seq<Group>>, number: nat, fileSize: seq<Entry> -> nat): Level
  {
    if parts == [] then []
    else
      var init, last := parts[..|parts| - 1], parts[|parts| - 1];
      TablesOf(init, number, fileSize) + TableOf(EntriesOf(last), number + |init|, fileSize)
  }

  lemma TablesMore(parts: seq<seq<Group>>, part: seq<Group>, number: nat, fileSize: seq<Entry> -> nat)
    ensures TablesOf(parts + [part], number, fileSize)
      == TablesOf(parts, number, fileSize) + TableOf(EntriesOf(part), number + |parts|, fileSize)
  {
    hide TableOf;
    hide Flatten;
    var more := parts + [part];
    assert more[..|more| - 1] == parts && more[|more| - 1] == part;
  }

  /** MarkFileNumberUsed. */
  function MarkUsed(nextFile: nat, number: nat): (n: nat)
    ensures n >= nextFile && n > number && (n == nextFile || n == number + 1)
  {
    if nextFile <= number then number + 1 else nextFile
  }

  /** The logs of `order` have become `tables`, and `nextFile` is free. */
  ghost predicate LogsFlushed(logs: map<nat, seq<Group>>, order: seq<nat>, full: seq<Entry> -> bool,
                              fileSize: seq<Entry> -> nat, firstFile: nat, tables: Level, nextFile: nat)
    requires forall n :: n in order ==> n in logs
  {
    if order == [] then tables == [] && nextFile == firstFile
    else
      var log := order[|order| - 1];
      exists before: Level, number: nat, parts: seq<seq<Group>> ::
        && LogsFlushed(logs, order[..|order| - 1], full, fileSize, firstFile, before, number)
        && LogFlushed(logs[log], full, fileSize, number, parts, before, tables)
        && nextFile == MarkUsed(number + |parts|, log)
  }

  /** One log has become the tables that `tables` has after `before`. */
  ghost predicate LogFlushed(records: seq<Group>, full: seq<Entry> -> bool, fileSize: seq<Entry> -> nat, number: nat,
                             parts: seq<seq<Group>>, before: Level, tables: Level)
  {
    SplitByMemTables(full, records, parts) && tables == before + TablesOf(parts, number, fileSize)
  }

  // ----- there is one way to split -----

  lemma EntriesOfPrefix(part: seq<Group>, n: nat)
    requires 0 < n < |part|
    ensures part[..|part| - 1][..n] == part[..n]
  {
  }

  /** A part does not end where another goes on. */
  lemma NotShorter(full: seq<Entry> -> bool, records: seq<Group>, a: seq<seq<Group>>, b: seq<seq<Group>>)
    requires SplitByMemTables(full, records, a) && SplitByMemTables(full, records, b) && a != [] && b != []
    ensures |a[0]| >= |b[0]|
  {
    FlattenFront(a);
    FlattenFront(b);
    var n := |a[0]|;
    assert n <= |b[0]| ==> b[0][..n] == records[..n] == a[0];
    assert |a| == 1 ==> a[1..] == [] && records == a[0];
    assert Fills(full, a[0]) && Fills(full, b[0]);
    if n < |b[0]| {
      EntriesOfPrefix(b[0], n);
      assert false;
    }
  }

  lemma SplitTail(full: seq<Entry> -> bool, records: seq<Group>, a: seq<seq<Group>>)
    requires SplitByMemTables(full, records, a) && a != []
    ensures |a[0]| <= |records| && a[0] == records[..|a[0]|]
    ensures SplitByMemTables(full, records[|a[0]|..], a[1..])
  {
    hide Fills;
    FlattenFront(a);
    forall j | 0 <= j < |a[1..]| - 1
      ensures full(MemTable.MemOf(EntriesOf(a[1..][j])))
    {
      assert a[1..][j] == a[j + 1];
    }
  }

  lemma {:induction false} SplitOnce(full: seq<Entry> -> bool, records: seq<Group>, a: seq<seq<Group>>,
                                     b: seq<seq<Group>>)
    requires SplitByMemTables(full, records, a) && SplitByMemTables(full, records, b)
    ensures a == b
    decreases |a|
  {
    if a == [] || b == [] {
      if a != [] { FlattenFront(a); }
      if b != [] { FlattenFront(b); }
    } else {
      NotShorter(full, records, a, b);
      NotShorter(full, records, b, a);
      SplitTail(full, records, a);
      SplitTail(full, records, b);
      SplitOnce(full, records[|a[0]|..], a[1..], b[1..]);
      assert a == [a[0]] + a[1..] && b == [b[0]] + b[1..];
    }
  }

  /** The recovered tables and the next file number are given by the logs. */
  lemma {:induction false} FlushedOnce(logs: map<nat, seq<Group>>, order: seq<nat>, full: seq<Entry> -> bool,
                                       fileSize: seq<Entry> -> nat, firstFile: nat, tables: Level, nextFile: nat,
                                       tables2: Level, nextFile2: nat)
    requires forall n :: n in order ==> n in logs
    requires LogsFlushed(logs, order, full, fileSize, firstFile, tables, nextFile)
    requires LogsFlushed(logs, order, full, fileSize, firstFile, tables2, nextFile2)
    ensures tables == tables2 && nextFile == nextFile2
    decreases |order|
  {
    hide LogFlushed;
    if order != [] {
      var init, log := order[..|order| - 1], order[|order| - 1];
      var before: Level, number: nat, parts: seq<seq<Group>> :|
        && LogsFlushed(logs, init, full, fileSize, firstFile, before, number)
        && LogFlushed(logs[log], full, fileSize, number, parts, before, tables)
        && nextFile == MarkUsed(number + |parts|, log);
      var before2: Level, number2: nat, parts2: seq<seq<Group>> :|
        && LogsFlushed(logs, init, full, fileSize, firstFile, before2, number2)
        && LogFlushed(logs[log], full, fileSize, number2, parts2, before2, tables2)
        && nextFile2 == MarkUsed(number2 + |parts2|, log);
      FlushedOnce(logs, init, full, fileSize, firstFile, before, number, before2, number2);
      assert parts == parts2 && tables == tables2 by {
        SameSplit(logs[log], full, fileSize, number, before, parts, tables, parts2, tables2);
      }
    }
  }

  lemma SameSplit(records: seq<Group>, full: seq<Entry> -> bool, fileSize: seq<Entry> -> nat, number: nat,
                  before: Level, parts: seq<seq<Group>>, tables: Level, parts2: seq<seq<Group>>, tables2: Level)
    requires LogFlushed(records, full, fileSize, number, parts, before, tables)
    requires LogFlushed(records, full, fileSize, number, parts2, before, tables2)
    ensures parts == parts2 && tables == tables2
  {
    SplitOnce(full, records, parts, parts2);
  }

  // ----- splitting as the records come -----

  /** The first records have been split into `parts`, all full, and an `open` one that is not. */
  ghost predicate SplitSoFar(full: seq<Entry> -> bool, records: seq<Group>, parts: seq<seq<Group>>, open: seq<Group>)
  {
    && Flatten(parts) + open == records && (forall j :: 0 <= j < |parts| ==> Fills(full, parts[j]))
    && (forall j :: 0 <= j < |parts| ==> full(MemTable.MemOf(EntriesOf(parts[j]))))
    && NotYetFull(full, open)
  }

  lemma RecordSplit(full: seq<Entry> -> bool, records: seq<Group>, parts: seq<seq<Group>>, open: seq<Group>,
                    record: Group)
    requires SplitSoFar(full, records, parts, open)
    ensures var more := open + [record];
      if full(MemTable.MemOf(EntriesOf(more))) then SplitSoFar(full, records + [record], parts + [more], [])
      else SplitSoFar(full, records + [record], parts, more)
  {
    var more := open + [record];
    FlattenAppend(parts, more);
    assert more[..|more| - 1] == open;
    assert Flatten(parts) + more == (Flatten(parts) + open) + [record] == Flatten(parts + [more]) + [];
    forall n | 0 < n <= |more| && !full(MemTable.MemOf(EntriesOf(more)))
      ensures !full(MemTable.MemOf(EntriesOf(more[..n])))
    {
      assert n == |more| || more[..n] == open[..n];
      assert more[..|more|] == more;
    }
  }

  lemma AllSplit(full: seq<Entry> -> bool, records: seq<Group>, parts: seq<seq<Group>>, open: seq<Group>)
    requires SplitSoFar(full, records, parts, open)
    ensures SplitByMemTables(full, records, if open == [] then parts else parts + [open])
  {
    FlattenAppend(parts, open);
    assert Flatten(parts) + [] == Flatten(parts);
    if open != [] {
      var init := open[..|open| - 1];
      forall n | 0 < n <= |init|
        ensures !full(MemTable.MemOf(EntriesOf(init[..n])))
      {
        assert init[..n] == open[..n];
      }
    }
  }
}
