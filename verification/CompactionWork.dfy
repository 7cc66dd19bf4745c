/** Running a compaction (db/db_impl.cc, DoCompactionWork; db/version_set.cc,
    class Compaction): merge, drop, and cut the output into files. */
module CompactionWork {
  import opened Wrappers
  import opened Keys
  import opened Files
  import opened Drop
  import opened Cuts
  import Overlap

  /** The scanning state of one compaction.  Cursors only move forward, which is
      enough because the keys asked about never decrease. */
  class Run {
    const deeper: seq<Level>
    const grandparents: Level
    const maxOverlapBytes: nat
    var levelPtrs: seq<nat>
    var grandparentIndex: nat
    var seenKey: bool
    var overlappedBytes: nat
    ghost var lastAsked: Option<Key>

    constructor (deeper: seq<Level>, grandparents: Level, maxOverlapBytes: nat)
      requires forall l :: 0 <= l < |deeper| ==> FilesOk(deeper[l]) && DisjointSorted(deeper[l])
      ensures Valid() && fresh(this) && lastAsked.None? && this.deeper == deeper
      ensures this.grandparents == grandparents && this.maxOverlapBytes == maxOverlapBytes
      ensures grandparentIndex == 0 && overlappedBytes == 0 && !seenKey
    {
      this.deeper, this.grandparents, this.maxOverlapBytes := deeper, grandparents, maxOverlapBytes;
      levelPtrs := seq(|deeper|, i => 0);
      grandparentIndex, seenKey, overlappedBytes := 0, false, 0;
      lastAsked := None;
    }

    ghost predicate Valid()
      reads this
    {
      && (forall l :: 0 <= l < |deeper| ==> FilesOk(deeper[l]) && DisjointSorted(deeper[l]))
      && |levelPtrs| == |deeper| && grandparentIndex <= |grandparents|
      && (forall l :: 0 <= l < |deeper| ==> Passed(deeper[l], levelPtrs[l], lastAsked))
    }

    /** The first `i` entries have been looked at: the cursor is past the grandparents
        that end before the last of them, and the bytes since the last stop are counted. */
    ghost predicate Stands(r: Rules, input: seq<Entry>, i: nat)
      requires i <= |input| && StrictlySorted(input)
      reads this`grandparentIndex, this`seenKey, this`overlappedBytes
    {
      && r.grandparents == grandparents && r.maxOverlapBytes == maxOverlapBytes
      && (if i == 0 then grandparentIndex == 0 && overlappedBytes == 0 && !seenKey
          else
            && grandparentIndex == PassedBy(grandparents, KeyOf(input[i - 1]))
            && overlappedBytes == Counted(r, input, i - 1) && seenKey)
    }

    /** The cursor stands before every file that a later key may fall into. */
    static ghost predicate Passed(files: Level, ptr: nat, asked: Option<Key>)
    {
      ptr <= |files| && forall i :: 0 <= i < ptr ==> asked.Some? && files[i].largest.user < asked.value
    }

    /** The forward-only cursors answer as a full scan would. */
    method IsBaseLevelForKey(k: Key) returns (base: bool)
      requires Valid() && (lastAsked.Some? ==> lastAsked.value <= k)
      modifies this`levelPtrs, this`lastAsked
      ensures Valid() && lastAsked == Some(k)
      ensures base <==> IsBaseLevel(deeper, k)
    {
      lastAsked := Some(k);
      var lvl := 0;
      while lvl < |deeper|
        invariant 0 <= lvl <= |deeper| == |levelPtrs|
        invariant forall l :: 0 <= l < |deeper| ==> Passed(deeper[l], levelPtrs[l], lastAsked)
        invariant IsBaseLevel(deeper[..lvl], k)
        invariant lastAsked == Some(k)
      {
        var ptr := levelPtrs[lvl];
        var inside := false;
        while ptr < |deeper[lvl]|
          invariant Passed(deeper[lvl], ptr, Some(k))
          invariant !inside
        {
          var f := deeper[lvl][ptr];
          if k <= f.largest.user {
            inside := k >= f.smallest.user;
            break;
          }
          ptr := ptr + 1;
        }
        levelPtrs := levelPtrs[lvl := ptr];
        if inside {
          assert Covers(deeper[lvl][ptr], k);
          return false;
        }
        NoneInLevel(deeper[lvl], ptr, k);
        lvl := lvl + 1;
      }
      assert deeper[..|deeper|] == deeper;
      base := true;
    }

    static lemma NoneInLevel(files: Level, ptr: nat, k: Key)
      requires FilesOk(files) && DisjointSorted(files) && Passed(files, ptr, Some(k))
      requires ptr < |files| ==> k < files[ptr].smallest.user
      ensures forall f :: f in files ==> !Covers(f, k)
    {
      forall f | f in files
        ensures !Covers(f, k)
      {
        var i :| 0 <= i < |files| && files[i] == f;
        if i > ptr {
          assert FileOk(files[ptr]);
          EntryInRange(files[ptr], files[ptr].entries[0]);
        }
      }
    }

    /** Whether to cut the output so that it overlaps few grandparent bytes. */
    method ShouldStopBefore(key: IKey, ghost r: Rules, ghost input: seq<Entry>, ghost i: nat) returns (stop: bool)
      requires Valid() && StrictlySorted(input) && i < |input| && key == KeyOf(input[i]) && Stands(r, input, i)
      modifies this`grandparentIndex, this`seenKey, this`overlappedBytes
      ensures Valid() && Stands(r, input, i + 1)
      ensures stop <==> StopsBefore(r, input, i)
    {
      hide StrictlySorted;
      hide FilesOk;
      hide DisjointSorted;
      hide Passed;
      hide PassedBy;
      hide Overlapped;
      hide Counted;
      hide StopsBefore;
      ghost var start := grandparentIndex;
      StartsBehind(r, input, i);
      while grandparentIndex < |grandparents| && Before(grandparents[grandparentIndex].largest, key)
        invariant Valid() && start <= grandparentIndex && seenKey == old(seenKey)
        invariant forall j :: 0 <= j < grandparentIndex ==> Before(grandparents[j].largest, key)
        invariant overlappedBytes == old(overlappedBytes)
          + (if seenKey then Overlap.TotalFileSize(grandparents[start..grandparentIndex]) else 0)
        decreases |grandparents| - grandparentIndex
      {
        OneMore(grandparents, start, grandparentIndex);
        if seenKey {
          overlappedBytes := overlappedBytes + grandparents[grandparentIndex].size;
        }
        grandparentIndex := grandparentIndex + 1;
      }
      PassedIs(grandparents, key, grandparentIndex);
      CountsOn(r, input, i);
      seenKey := true;
      stop := overlappedBytes > maxOverlapBytes;
      if stop {
        overlappedBytes := 0;
      }
    }

    /** What is counted at entry `i`, after what was counted before. */
    static lemma CountsOn(r: Rules, input: seq<Entry>, i: nat)
      requires StrictlySorted(input) && i < |input|
      ensures i == 0 ==> Overlapped(r, input, i) == 0
      ensures i > 0 ==> Before(KeyOf(input[i - 1]), KeyOf(input[i]))
      ensures i > 0 ==>
        var a, b := PassedBy(r.grandparents, KeyOf(input[i - 1])), PassedBy(r.grandparents, KeyOf(input[i]));
        && a <= b
        && Overlapped(r, input, i) == Counted(r, input, i - 1) + Overlap.TotalFileSize(r.grandparents[a..b])
      ensures StopsBefore(r, input, i) <==> Overlapped(r, input, i) > r.maxOverlapBytes
      ensures Counted(r, input, i) == if StopsBefore(r, input, i) then 0 else Overlapped(r, input, i)
    {
      if i > 0 {
        assert EntryBefore(input[i - 1], input[i]);
        PassesMore(r.grandparents, KeyOf(input[i - 1]), KeyOf(input[i]));
      }
    }

    /** The cursor is past nothing that ends at or after the next key. */
    lemma StartsBehind(r: Rules, input: seq<Entry>, i: nat)
      requires StrictlySorted(input) && i < |input| && Stands(r, input, i) && grandparentIndex <= |grandparents|
      ensures forall j :: 0 <= j < grandparentIndex ==> Before(grandparents[j].largest, KeyOf(input[i]))
      ensures grandparents[grandparentIndex..grandparentIndex] == []
      ensures i > 0 ==> Before(KeyOf(input[i - 1]), KeyOf(input[i]))
    {
      assert i > 0 ==> EntryBefore(input[i - 1], input[i]);
    }
  }

  lemma OneMore(files: Level, start: nat, n: nat)
    requires start <= n < |files|
    ensures Overlap.TotalFileSize(files[start..n + 1]) == Overlap.TotalFileSize(files[start..n]) + files[n].size
  {
    assert files[start..n + 1] == files[start..n] + [files[n]];
    Overlap.TotalsAdd(files[start..n], [files[n]]);
  }

  /** What the loop remembers of the entry before: its key and its sequence. */
  datatype Scan = Scan(userKey: Option<Key>, lastSequence: nat)

  ghost predicate ScanOk(input: seq<Entry>, i: nat, scan: Scan, asked: Option<Key>)
    requires i <= |input|
  {
    if i == 0 then scan.userKey.None? && asked.None?
    else
      && scan == Scan(Some(input[i - 1].user), input[i - 1].seqno)
      && (asked.Some? ==> asked.value <= input[i - 1].user)
  }

  /** Decide on one entry. */
  method DecideDrop(run: Run, ghost input: seq<Entry>, ghost i: nat, e: Entry, scan: Scan, smallestSnapshot: nat)
    returns (drop: bool, next: Scan)
    requires run.Valid() && i < |input| && e == input[i] && StrictlySorted(input)
    requires ScanOk(input, i, scan, run.lastAsked) && smallestSnapshot < MAX_SEQUENCE
    modifies run`levelPtrs, run`lastAsked
    ensures run.Valid() && ScanOk(input, i + 1, next, run.lastAsked)
    ensures drop <==> Dropped(input, i, smallestSnapshot, run.deeper)
  {
    assert i > 0 ==> EntryBefore(input[i - 1], input[i]);
    var lastSequenceForKey := scan.lastSequence;
    if scan.userKey != Some(e.user) {
      lastSequenceForKey := MAX_SEQUENCE;
    }
    drop := false;
    if lastSequenceForKey <= smallestSnapshot {
      drop := true;
    } else if e.op.Delete? && e.seqno <= smallestSnapshot {
      drop := run.IsBaseLevelForKey(e.user);
    }
    next := Scan(Some(e.user), e.seqno);
  }

  /** The main loop.  `input` is what the merging iterator yields; `fileSize`
      stands for the size of the table built so far. */
  method DoCompactionWork(run: Run, input: seq<Entry>, smallestSnapshot: nat,
                          fileSize: seq<Entry> -> nat, maxOutputFileSize: nat)
    returns (outputs: seq<seq<Entry>>)
    requires run.Valid() && run.lastAsked.None?
    requires StrictlySorted(input) && smallestSnapshot < MAX_SEQUENCE
    requires run.Stands(Rules(run.grandparents, run.maxOverlapBytes, fileSize, maxOutputFileSize), input, 0)
    modifies run
    ensures Flatten(outputs) == Survivors(input, |input|, smallestSnapshot, run.deeper)
    ensures WellCut(Rules(run.grandparents, run.maxOverlapBytes, fileSize, maxOutputFileSize), input, outputs)
  {
    outputs := [];
    var builder: seq<Entry> := [];
    var scan := Scan(None, MAX_SEQUENCE);
    var i := 0;
    ghost var r := Rules(run.grandparents, run.maxOverlapBytes, fileSize, maxOutputFileSize);
    WorkBegins(r, input, smallestSnapshot, run.deeper);
    hide Worked;
    hide ScanOk;
    hide StrictlySorted;
    hide WellCut;
    while i < |input|
      invariant 0 <= i <= |input|
      invariant run.Valid() && ScanOk(input, i, scan, run.lastAsked) && run.Stands(r, input, i)
      invariant Worked(r, input, i, smallestSnapshot, run.deeper, outputs, builder)
    {
      scan, outputs, builder := DoEntry(run, r, input, i, scan, smallestSnapshot, fileSize, maxOutputFileSize,
                                        outputs, builder);
      i := i + 1;
    }
    WorkEnds(r, input, smallestSnapshot, run.deeper, outputs, builder);
    if builder != [] {
      outputs := outputs + [builder];
    }
  }

  /** The first `n` entries have been worked on: what survives of them is in the
      outputs and the table being built, cut as it should be. */
  ghost predicate Worked(r: Rules, input: seq<Entry>, n: nat, smallestSnapshot: nat, deeper: seq<Level>,
                         outputs: seq<seq<Entry>>, builder: seq<Entry>)
    requires StrictlySorted(input) && n <= |input|
  {
    && CutSoFar(r, input, n, outputs, builder)
    && Flatten(outputs) + builder == Survivors(input, n, smallestSnapshot, deeper)
  }

  /** One turn of the loop. */
  method DoEntry(run: Run, ghost r: Rules, input: seq<Entry>, i: nat, scan: Scan, smallestSnapshot: nat,
                 fileSize: seq<Entry> -> nat, maxOutputFileSize: nat, outputs0: seq<seq<Entry>>,
                 builder0: seq<Entry>)
    returns (next: Scan, outputs: seq<seq<Entry>>, builder: seq<Entry>)
    requires run.Valid() && StrictlySorted(input) && i < |input| && ScanOk(input, i, scan, run.lastAsked)
    requires run.Stands(r, input, i) && smallestSnapshot < MAX_SEQUENCE
    requires r.fileSize == fileSize && r.maxOutputFileSize == maxOutputFileSize
    requires Worked(r, input, i, smallestSnapshot, run.deeper, outputs0, builder0)
    modifies run
    ensures run.Valid() && ScanOk(input, i + 1, next, run.lastAsked) && run.Stands(r, input, i + 1)
    ensures Worked(r, input, i + 1, smallestSnapshot, run.deeper, outputs, builder)
  {
    hide *;
    outputs, builder := outputs0, builder0;
    var e := input[i];
    var stop := run.ShouldStopBefore(KeyOf(e), r, input, i);
    StopWorks(r, input, i, smallestSnapshot, run.deeper, outputs, builder);
    if stop && builder != [] {
      outputs, builder := outputs + [builder], [];
    }
    var drop;
    drop, next := DecideDrop(run, input, i, e, scan, smallestSnapshot);
    EntryWorks(r, input, i, smallestSnapshot, run.deeper, outputs, builder);
    if !drop {
      builder := builder + [e];
      if fileSize(builder) >= maxOutputFileSize {
        outputs, builder := outputs + [builder], [];
      }
    }
  }

  /** After the question whether to stop, before entry `n` is decided on. */
  ghost predicate Between(r: Rules, input: seq<Entry>, n: nat, smallestSnapshot: nat, deeper: seq<Level>,
                          outputs: seq<seq<Entry>>, builder: seq<Entry>)
    requires StrictlySorted(input) && n < |input|
  {
    && CutSoFar(r, input, n + 1, outputs, builder)
    && (forall e :: e in Flatten(AllParts(outputs, builder)) ==> e in input[..n])
    && Flatten(outputs) + builder == Survivors(input, n, smallestSnapshot, deeper)
  }

  lemma StopWorks(r: Rules, input: seq<Entry>, n: nat, smallestSnapshot: nat, deeper: seq<Level>,
                  outputs: seq<seq<Entry>>, builder: seq<Entry>)
    requires StrictlySorted(input) && n < |input| && Worked(r, input, n, smallestSnapshot, deeper, outputs, builder)
    ensures if StopsBefore(r, input, n) && builder != []
      then Between(r, input, n, smallestSnapshot, deeper, outputs + [builder], [])
      else Between(r, input, n, smallestSnapshot, deeper, outputs, builder)
  {
    hide StrictlySorted;
    hide StopsBefore;
    hide Survivors;
    LookAt(r, input, n, outputs, builder);
    MembersSoFar(r, input, n, outputs, builder);
    FlattenAppend(outputs, builder);
    hide CutSoFar;
    hide Flatten;
  }

  lemma EntryWorks(r: Rules, input: seq<Entry>, n: nat, smallestSnapshot: nat, deeper: seq<Level>,
                   outputs: seq<seq<Entry>>, builder: seq<Entry>)
    requires StrictlySorted(input) && n < |input| && Between(r, input, n, smallestSnapshot, deeper, outputs, builder)
    ensures var more := builder + [input[n]];
      if Dropped(input, n, smallestSnapshot, deeper)
      then Worked(r, input, n + 1, smallestSnapshot, deeper, outputs, builder)
      else if r.fileSize(more) >= r.maxOutputFileSize
      then Worked(r, input, n + 1, smallestSnapshot, deeper, outputs + [more], [])
      else Worked(r, input, n + 1, smallestSnapshot, deeper, outputs, more)
  {
    hide StrictlySorted;
    hide Survivors;
    hide Dropped;
    hide CutSoFar;
    var more := builder + [input[n]];
    NextSurvivor(input, n, smallestSnapshot, deeper);
    Keep(r, input, n, outputs, builder);
    FlattenAppend(outputs, more);
    hide Flatten;
    assert Flatten(outputs) + more == (Flatten(outputs) + builder) + [input[n]];
    assert Flatten(outputs + [more]) + [] == Flatten(outputs) + more;
  }

  lemma WorkBegins(r: Rules, input: seq<Entry>, smallestSnapshot: nat, deeper: seq<Level>)
    requires StrictlySorted(input)
    ensures Worked(r, input, 0, smallestSnapshot, deeper, [], [])
  {
    NothingCut(r, input);
  }

  lemma WorkEnds(r: Rules, input: seq<Entry>, smallestSnapshot: nat, deeper: seq<Level>, outputs: seq<seq<Entry>>,
                 builder: seq<Entry>)
    requires StrictlySorted(input) && Worked(r, input, |input|, smallestSnapshot, deeper, outputs, builder)
    ensures Flatten(AllParts(outputs, builder)) == Survivors(input, |input|, smallestSnapshot, deeper)
    ensures WellCut(r, input, AllParts(outputs, builder))
  {
    hide StrictlySorted;
    hide Survivors;
    AllCut(r, input, outputs, builder);
    FlattenAppend(outputs, builder);
    assert Flatten(outputs) + [] == Flatten(outputs);
  }

  lemma MembersSoFar(r: Rules, input: seq<Entry>, n: nat, outputs: seq<seq<Entry>>, builder: seq<Entry>)
    requires StrictlySorted(input) && n <= |input| && CutSoFar(r, input, n, outputs, builder)
    ensures forall e :: e in Flatten(AllParts(outputs, builder)) ==> e in input[..n]
    ensures AllParts(AllParts(outputs, builder), []) == AllParts(outputs, builder)
  {
  }

  lemma AllCut(r: Rules, input: seq<Entry>, outputs: seq<seq<Entry>>, builder: seq<Entry>)
    requires StrictlySorted(input) && CutSoFar(r, input, |input|, outputs, builder)
    ensures WellCut(r, input, AllParts(outputs, builder))
  {
  }

  lemma NextSurvivor(input: seq<Entry>, i: nat, smallestSnapshot: nat, deeper: seq<Level>)
    requires i < |input|
    ensures Survivors(input, i + 1, smallestSnapshot, deeper)
      == Survivors(input, i, smallestSnapshot, deeper)
        + (if Dropped(input, i, smallestSnapshot, deeper) then [] else [input[i]])
  {
    hide Dropped;
  }
}
