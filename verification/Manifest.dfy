/** The MANIFEST: a snapshot record, then one record per installed version
    (db/version_set.cc, WriteSnapshot, LogAndApply, Recover). */
module Manifest {
  import opened Wrappers
  import opened Keys
  import opened Files
  import opened Builder

  /** `vs[i + 1]` is the version LogAndApply made of `vs[i]` and `edits[i]`. */
  ghost predicate IsHistory(vs: seq<Version>, edits: seq<Edit>)
  {
    && |vs| == |edits| + 1
    && (forall i :: 0 <= i < |edits| ==> AfterEdit(vs[i], edits[i], vs[i + 1]))
  }

  /** The snapshot record adds the files of a version and does nothing else. */
  ghost predicate IsSnapshot(e: Edit, v: Version)
  {
    && |v| == NUM_LEVELS && e.deleted == {}
    && (forall l: nat, f :: AddsFile(e, l, f) <==> l < NUM_LEVELS && f in v[l])
  }

  /** No (level, number) pair is added by two records, or twice by one. */
  ghost predicate NeverAddedTwice(records: seq<Edit>)
  {
    && (forall i, l, f, g :: (0 <= i < |records| && AddsFile(records[i], l, f) && AddsFile(records[i], l, g)) ==>
      f.number == g.number ==> f == g)
    && (forall i, j, l, f, g ::
      (0 <= i < j < |records| && AddsFile(records[i], l, f) && AddsFile(records[j], l, g)) ==> f.number != g.number)
  }

  /** `s` is what one builder has pending at level `l` after some records. */
  ghost predicate PendingIs(records: seq<Edit>, n: nat, l: nat, s: LevelState)
    requires n <= |records|
  {
    && SortedBySmallest(s.added)
    && (forall f :: f in s.added <==> exists i :: 0 <= i < n && AddsFile(records[i], l, f))
  }

  /** The files a builder would save are the files history has arrived at. */
  ghost predicate Agrees(s: LevelState, files: Level)
  {
    forall f :: f in files <==> Merged([], s, f)
  }

  /** One more record keeps a replaying builder in step with history. */
  lemma ReplayStep(records: seq<Edit>, n: nat, l: nat, s: LevelState, next: LevelState, v: Version, w: Version)
    requires n < |records| && l < NUM_LEVELS && NeverAddedTwice(records)
    requires PendingIs(records, n, l, s) && Applied(s, l, records[n], next)
    requires |v| == NUM_LEVELS && Agrees(s, v[l]) && AfterEdit(v, records[n], w)
    ensures PendingIs(records, n + 1, l, next) && Agrees(next, w[l])
  {
    var e := records[n];
    forall f
      ensures f in next.added <==> exists i :: 0 <= i < n + 1 && AddsFile(records[i], l, f)
    {
      if f in next.added && f !in s.added {
        assert AddsFile(records[n], l, f);
      }
    }
    forall f
      ensures f in w[l] <==> Merged([], next, f)
    {
      assert f in w[l] <==> Keeps(v, e, l, f);
      if f in s.added && !AddsFile(e, l, f) {
        var i :| 0 <= i < n && AddsFile(records[i], l, f);
        assert !AddsNumber(e, l, f.number);
      }
    }
  }

  datatype Recovered = Recovered(version: Version, pointers: seq<Option<IKey>>,
    nextFile: nat, lastSequence: nat, logNumber: nat, prevLogNumber: nat)

  datatype Error = NoNextFile | NoLogNumber | NoLastSequence

  datatype Result<T> = Ok(value: T) | Err(error: Error)

  function NextFileOf(e: Edit): Option<nat> { e.nextFile }
  function LogNumberOf(e: Edit): Option<nat> { e.logNumber }
  function LastSequenceOf(e: Edit): Option<nat> { e.lastSequence }
  function PrevLogNumberOf(e: Edit): Option<nat> { e.prevLogNumber }

  /** The last value a field was given by the records, if any. */
  function LastSet(records: seq<Edit>, field: Edit -> Option<nat>): (r: Option<nat>)
    ensures r.Some? <==> exists i :: 0 <= i < |records| && field(records[i]).Some?
  {
    if records == [] then None
    else
      var last := records[|records| - 1];
      assert records == records[..|records| - 1] + [last];
      if field(last).Some? then field(last) else LastSet(records[..|records| - 1], field)
  }

  /** Every pointer of the records belongs to a level. */
  ghost predicate PointersInRange(records: seq<Edit>)
  {
    forall e, p :: e in records && p in e.compactPointers ==> p.0 < NUM_LEVELS
  }

  /** The compaction pointers some records leave behind. */
  function PointersOf(records: seq<Edit>): (r: seq<Option<IKey>>)
    requires PointersInRange(records)
    ensures |r| == NUM_LEVELS
  {
    if records == [] then seq(NUM_LEVELS, i => None)
    else MovePointers(PointersOf(records[..|records| - 1]), records[|records| - 1].compactPointers)
  }

  lemma PointersMore(records: seq<Edit>, i: nat)
    requires i < |records| && PointersInRange(records)
    ensures PointersInRange(records[..i]) && PointersInRange(records[..i + 1])
    ensures forall p :: p in records[i].compactPointers ==> p.0 < NUM_LEVELS
    ensures PointersOf(records[..i + 1]) == MovePointers(PointersOf(records[..i]), records[i].compactPointers)
  {
    hide MovePointers;
    assert records[..i + 1][..i] == records[..i];
  }

  lemma InStepAtFirst(records: seq<Edit>, levels: seq<LevelState>, vs: seq<Version>, f: Fields)
    requires |records| == |vs| && forall i :: 0 <= i < |vs| ==> |vs[i]| == NUM_LEVELS
    requires levels == seq(NUM_LEVELS, i => LevelState({}, [])) && f == Fields(None, None, None, None)
    ensures InStep(records, 0, levels, vs) && LastFields(records[..0], f)
  {
  }

  lemma NoPointers()
    ensures PointersOf([]) == seq(NUM_LEVELS, i => None)
  {
  }

  lemma LevelsInRange(records: seq<Edit>)
    requires forall i :: 0 <= i < |records| ==> EditOk(records[i])
    ensures PointersInRange(records)
  {
  }

  /** Replay a manifest with one builder.  The version recovered is the version
      history had reached, file for file and in the same order. */
  method Recover(records: seq<Edit>, ghost vs: seq<Version>) returns (r: Result<Recovered>)
    requires records != [] && (forall i :: 0 <= i < |records| ==> EditOk(records[i]))
    requires NeverAddedTwice(records)
    requires IsHistory(vs, records[1..]) && IsSnapshot(records[0], vs[0])
    requires forall l :: 0 <= l < NUM_LEVELS ==> SortedBySmallest(vs[0][l])
    requires forall i :: 0 <= i < |vs| ==> |vs[i]| == NUM_LEVELS
    requires FilesDistinct(vs[|vs| - 1])
    ensures r.Ok? <==>
      && LastSet(records, NextFileOf).Some?
      && LastSet(records, LogNumberOf).Some?
      && LastSet(records, LastSequenceOf).Some?
    ensures r.Ok? ==>
      && r.value.version == vs[|vs| - 1] && |r.value.pointers| == NUM_LEVELS
      && Some(r.value.nextFile) == LastSet(records, NextFileOf)
      && Some(r.value.logNumber) == LastSet(records, LogNumberOf)
      && Some(r.value.lastSequence) == LastSet(records, LastSequenceOf)
      && r.value.prevLogNumber == (match LastSet(records, PrevLogNumberOf) case Some(n) => n case None => 0)
    ensures r.Ok? ==> PointersInRange(records) && r.value.pointers == PointersOf(records)
  {
    hide PointersOf;
    hide MovePointers;
    assert |vs| == |records| > 0;
    hide EditOk;
    hide IsHistory;
    hide FilesDistinct;
    hide CanAdd;
    hide PendingIs;
    hide SortedBySmallest;
    LevelsInRange(records);
    NoPointers();
    assert records[..0] == [];
    hide PointersInRange;
    var empty: Version := seq(NUM_LEVELS, i => []);
    var builder := new VersionBuilder(empty, seq(NUM_LEVELS, i => None));
    var fields := Fields(None, None, None, None);
    var i := 0;
    InStepAtFirst(records, builder.levels, vs, fields);
    hide InStep;
    hide LastFields;
    hide NeverAddedTwice;
    hide IsSnapshot;
    hide AfterEdit;
    hide Applied;
    hide LastSet;
    while i < |records|
      invariant 0 <= i <= |records| && builder.Shape() && builder.base == empty
      invariant fresh(builder)
      invariant InStep(records, i, builder.levels, vs)
      invariant LastFields(records[..i], fields)
      invariant PointersInRange(records[..i]) && builder.compactPointers == PointersOf(records[..i])
    {
      ghost var before := builder.levels;
      PointersMore(records, i);
      forall l | 0 <= l < NUM_LEVELS
        ensures CanAdd(builder.levels[l], l, records[i])
      {
        InStepAt(records, i, builder.levels, vs, l);
        PendingAllowsAdd(records, i, l, builder.levels[l]);
      }
      builder.Apply(records[i]);
      ReplayLevels(records, i, before, builder.levels, vs);
      LastFieldsStep(records, i, fields);
      if records[i].logNumber.Some? { fields := fields.(logNumber := records[i].logNumber); }
      if records[i].prevLogNumber.Some? { fields := fields.(prevLogNumber := records[i].prevLogNumber); }
      if records[i].nextFile.Some? { fields := fields.(nextFile := records[i].nextFile); }
      if records[i].lastSequence.Some? { fields := fields.(lastSequence := records[i].lastSequence); }
      i := i + 1;
    }
    assert records[..|records|] == records;
    FieldsFound(records, fields);
    if fields.nextFile.None? {
      return Err(NoNextFile);
    } else if fields.logNumber.None? {
      return Err(NoLogNumber);
    } else if fields.lastSequence.None? {
      return Err(NoLastSequence);
    }
    var version := SaveReplayed(builder, records, vs);
    r := Ok(Recovered(version, builder.compactPointers, fields.nextFile.value, fields.lastSequence.value,
                      fields.logNumber.value, if fields.prevLogNumber.Some? then fields.prevLogNumber.value else 0));
  }

  lemma FieldsFound(records: seq<Edit>, f: Fields)
    requires LastFields(records, f)
    ensures f == Fields(LastSet(records, NextFileOf), LastSet(records, LogNumberOf), LastSet(records, LastSequenceOf),
                        LastSet(records, PrevLogNumberOf))
  {
  }

  /** The manifest fields a replay has met so far. */
  datatype Fields = Fields(nextFile: Option<nat>, logNumber: Option<nat>, lastSequence: Option<nat>,
    prevLogNumber: Option<nat>)

  ghost predicate LastFields(records: seq<Edit>, f: Fields)
  {
    && f.nextFile == LastSet(records, NextFileOf)
    && f.logNumber == LastSet(records, LogNumberOf)
    && f.lastSequence == LastSet(records, LastSequenceOf)
    && f.prevLogNumber == LastSet(records, PrevLogNumberOf)
  }

  lemma LastFieldsStep(records: seq<Edit>, i: nat, f: Fields)
    requires i < |records| && LastFields(records[..i], f)
    ensures LastFields(records[..i + 1], Fields(
      if records[i].nextFile.Some? then records[i].nextFile else f.nextFile,
      if records[i].logNumber.Some? then records[i].logNumber else f.logNumber,
      if records[i].lastSequence.Some? then records[i].lastSequence else f.lastSequence,
      if records[i].prevLogNumber.Some? then records[i].prevLogNumber else f.prevLogNumber))
  {
    assert records[..i + 1][..i] == records[..i];
  }

  /** The builder that replayed everything saves the last version of history. */
  method SaveReplayed(builder: VersionBuilder, records: seq<Edit>, ghost vs: seq<Version>) returns (version: Version)
    requires builder.Shape() && |records| == |vs| > 0 && forall i :: 0 <= i < |vs| ==> |vs[i]| == NUM_LEVELS
    requires builder.base == seq(NUM_LEVELS, i => []) && InStep(records, |records|, builder.levels, vs)
    requires IsHistory(vs, records[1..]) && FilesDistinct(vs[|vs| - 1])
    requires forall l :: 0 <= l < NUM_LEVELS ==> SortedBySmallest(vs[0][l])
    ensures version == vs[|vs| - 1]
  {
    ghost var last := vs[|vs| - 1];
    forall l | 0 <= l < NUM_LEVELS
      ensures CanSave(l, builder.base[l], builder.levels[l])
    {
      InStepAt(records, |records|, builder.levels, vs, l);
      HistoryCanBeSaved(l, last, builder.levels[l]);
    }
    version := builder.SaveTo();
    forall l | 0 <= l < NUM_LEVELS
      ensures version[l] == last[l]
    {
      InStepAt(records, |records|, builder.levels, vs, l);
      HistorySorted(vs, records[1..], |vs| - 1, l);
      SortedLevelsEqual(version[l], last[l]);
    }
    assert version == last;
  }

  ghost predicate InStep(records: seq<Edit>, n: nat, levels: seq<LevelState>, vs: seq<Version>)
    requires n <= |records| == |vs| && forall i :: 0 <= i < |vs| ==> |vs[i]| == NUM_LEVELS
  {
    && |levels| == NUM_LEVELS
    && (forall l :: 0 <= l < NUM_LEVELS ==> PendingIs(records, n, l, levels[l]))
    && (n == 0 ==> forall l :: 0 <= l < NUM_LEVELS ==> levels[l] == LevelState({}, []))
    && (n > 0 ==> forall l :: 0 <= l < NUM_LEVELS ==> Agrees(levels[l], vs[n - 1][l]))
  }

  lemma InStepAt(records: seq<Edit>, n: nat, levels: seq<LevelState>, vs: seq<Version>, l: nat)
    requires n <= |records| == |vs| && forall i :: 0 <= i < |vs| ==> |vs[i]| == NUM_LEVELS
    requires InStep(records, n, levels, vs) && l < NUM_LEVELS
    ensures |levels| == NUM_LEVELS && PendingIs(records, n, l, levels[l]) && SortedBySmallest(levels[l].added)
    ensures n > 0 ==> Agrees(levels[l], vs[n - 1][l])
  {
  }

  lemma ReplayLevels(records: seq<Edit>, n: nat, before: seq<LevelState>, after: seq<LevelState>, vs: seq<Version>)
    requires n < |records| == |vs| && NeverAddedTwice(records)
    requires forall i :: 0 <= i < |vs| ==> |vs[i]| == NUM_LEVELS
    requires IsHistory(vs, records[1..]) && IsSnapshot(records[0], vs[0])
    requires forall l :: 0 <= l < NUM_LEVELS ==> SortedBySmallest(vs[0][l])
    requires InStep(records, n, before, vs) && |after| == NUM_LEVELS
    requires forall l :: 0 <= l < NUM_LEVELS ==> Applied(before[l], l, records[n], after[l])
    ensures InStep(records, n + 1, after, vs)
  {
    var v: Version := if n == 0 then seq(NUM_LEVELS, i => []) else vs[n - 1];
    if n == 0 {
      SnapshotStep(records[0], vs[0]);
    } else {
      assert records[1..][n - 1] == records[n];
    }
    forall l | 0 <= l < NUM_LEVELS
      ensures PendingIs(records, n + 1, l, after[l]) && Agrees(after[l], vs[n][l])
    {
      ReplayStep(records, n, l, before[l], after[l], v, vs[n]);
    }
  }

  /** What the last version of history must satisfy to be saved again. */
  ghost predicate FilesDistinct(v: Version)
    requires |v| == NUM_LEVELS
  {
    && (forall l :: 0 <= l < NUM_LEVELS ==> DistinctNumbers(iset f | f in v[l]))
    && (forall l :: 0 < l < NUM_LEVELS ==> PairwiseDisjoint(iset f | f in v[l]))
    && (forall l, f :: 0 <= l < NUM_LEVELS && f in v[l] ==> f.smallest.user <= f.largest.user)
  }

  lemma HistoryCanBeSaved(l: nat, v: Version, s: LevelState)
    requires |v| == NUM_LEVELS && FilesDistinct(v) && l < NUM_LEVELS
    requires SortedBySmallest(s.added) && Agrees(s, v[l])
    ensures CanSave(l, [], s)
  {
    assert (iset f | f in v[l]) == MergedSet([], s);
  }

  lemma HistorySorted(vs: seq<Version>, edits: seq<Edit>, i: nat, l: nat)
    requires IsHistory(vs, edits) && i < |vs| && l < NUM_LEVELS && |vs[0]| == NUM_LEVELS
    requires forall m :: 0 <= m < NUM_LEVELS ==> SortedBySmallest(vs[0][m])
    ensures |vs[i]| == NUM_LEVELS && SortedBySmallest(vs[i][l])
  {
    if i > 0 {
      assert AfterEdit(vs[i - 1], edits[i - 1], vs[i]);
    }
  }

  lemma PendingAllowsAdd(records: seq<Edit>, n: nat, l: nat, s: LevelState)
    requires n < |records| && NeverAddedTwice(records) && PendingIs(records, n, l, s)
    ensures CanAdd(s, l, records[n])
  {
  }

  lemma SnapshotStep(e: Edit, v: Version)
    requires IsSnapshot(e, v) && forall l :: 0 <= l < NUM_LEVELS ==> SortedBySmallest(v[l])
    ensures AfterEdit(seq(NUM_LEVELS, i => []), e, v)
  {
    forall l, f | 0 <= l < NUM_LEVELS
      ensures f in v[l] <==> Keeps(seq(NUM_LEVELS, i => []), e, l, f)
    {
      assert AddsFile(e, l, f) <==> f in v[l];
    }
  }

  /** The pointers of the record are those of the levels. */
  ghost predicate PointsTo(e: Edit, pointers: seq<Option<IKey>>)
  {
    forall l: nat, k :: (l, k) in e.compactPointers <==> l < |pointers| && pointers[l] == Some(k)
  }

  /** A snapshot record gives back the pointers it was made from. */
  lemma SnapshotPointers(e: Edit, pointers: seq<Option<IKey>>)
    requires |pointers| == NUM_LEVELS && PointsTo(e, pointers)
    ensures PointersInRange([e]) && PointersOf([e]) == pointers
  {
    var none: seq<Option<IKey>> := seq(NUM_LEVELS, i => None);
    assert forall p :: p in e.compactPointers ==> (p.0, p.1) == p;
    assert [e][..0] == [] && PointersOf([]) == none;
    MovedTo(none, e.compactPointers, pointers);
    forall l | 0 <= l < NUM_LEVELS
      ensures MovePointers(none, e.compactPointers)[l] == pointers[l]
    {
      if pointers[l].Some? {
        assert (l, pointers[l].value) in e.compactPointers;
      }
    }
  }

  lemma {:induction false} MovedTo(from: seq<Option<IKey>>, updates: seq<(nat, IKey)>, to: seq<Option<IKey>>)
    requires |from| == |to| && forall u :: u in updates ==> u.0 < |to| && to[u.0] == Some(u.1)
    ensures forall l :: 0 <= l < |to| ==>
      MovePointers(from, updates)[l] == (if exists u :: u in updates && u.0 == l then to[l] else from[l])
    decreases |updates|
  {
    if updates != [] {
      assert updates == [updates[0]] + updates[1..];
      MovedTo(from[updates[0].0 := Some(updates[0].1)], updates[1..], to);
    }
  }

  /** VersionSet::WriteSnapshot: every file of the version, level by level. */
  method WriteSnapshot(comparator: seq<Byte>, pointers: seq<Option<IKey>>, v: Version) returns (e: Edit)
    requires |v| == NUM_LEVELS && |pointers| == NUM_LEVELS
    ensures IsSnapshot(e, v) && EditOk(e)
    ensures e.logNumber.None? && e.prevLogNumber.None? && e.nextFile.None? && e.lastSequence.None?
    ensures e.comparator == Some(comparator) && PointsTo(e, pointers)
  {
    var added: seq<(nat, File)> := [];
    var updates: seq<(nat, IKey)> := [];
    var level := 0;
    while level < NUM_LEVELS
      invariant level <= NUM_LEVELS
      invariant forall l: nat, k :: (l, k) in updates <==> l < level && pointers[l] == Some(k)
    {
      if pointers[level].Some? {
        updates := updates + [(level, pointers[level].value)];
      }
      level := level + 1;
    }
    level := 0;
    while level < NUM_LEVELS
      invariant level <= NUM_LEVELS
      invariant forall l: nat, f :: (l, f) in added <==> l < level && f in v[l]
    {
      var i := 0;
      while i < |v[level]|
        invariant 0 <= i <= |v[level]|
        invariant forall l: nat, f :: (l, f) in added <==>
          (l < level && f in v[l]) || (l == level && f in v[level][..i])
      {
        assert v[level][..i + 1] == v[level][..i] + [v[level][i]];
        added := added + [(level, v[level][i])];
        i := i + 1;
      }
      assert v[level][..i] == v[level];
      level := level + 1;
    }
    e := Edit(Some(comparator), None, None, None, None, updates, {}, added);
  }

  // ----- exactly when replay keeps up with history -----

  /** Some record before `n` adds the file. */
  ghost predicate Had(records: seq<Edit>, n: nat, l: nat, f: File)
    requires n <= |records|
  {
    exists i :: 0 <= i < n && AddsFile(records[i], l, f)
  }

  ghost predicate DeletedAt(records: seq<Edit>, n: nat, l: nat, number: nat, i: nat)
    requires i < n <= |records|
  {
    (l, number) in records[i].deleted && forall j :: i <= j < n ==> !AddsNumber(records[j], l, number)
  }

  /** The number has been deleted and not been added since. */
  ghost predicate Dead(records: seq<Edit>, n: nat, l: nat, number: nat)
    requires n <= |records|
  {
    exists i :: 0 <= i < n && DeletedAt(records, n, l, number, i)
  }

  /** Record `n` adds a number that is dead at its level, and leaves out a file that had it. */
  ghost predicate Revives(records: seq<Edit>, n: nat, l: nat, f: File)
    requires n < |records|
  {
    && Had(records, n, l, f) && Dead(records, n, l, f.number)
    && AddsNumber(records[n], l, f.number) && !AddsFile(records[n], l, f)
  }

  /** What a replaying builder has pending at a level, record by record. */
  ghost predicate IsReplay(records: seq<Edit>, l: nat, states: seq<LevelState>)
  {
    && |states| == |records| + 1 && states[0] == LevelState({}, [])
    && forall n :: 0 <= n < |records| ==> Applied(states[n], l, records[n], states[n + 1])
  }

  lemma HadMore(records: seq<Edit>, n: nat, l: nat, f: File)
    requires n < |records|
    ensures Had(records, n + 1, l, f) <==> Had(records, n, l, f) || AddsFile(records[n], l, f)
  {
  }

  lemma DeadMore(records: seq<Edit>, n: nat, l: nat, number: nat)
    requires n < |records|
    ensures Dead(records, n + 1, l, number)
      <==> (Dead(records, n, l, number) || (l, number) in records[n].deleted) && !AddsNumber(records[n], l, number)
  {
    if Dead(records, n + 1, l, number) {
      var i :| 0 <= i < n + 1 && DeletedAt(records, n + 1, l, number, i);
      assert i < n ==> DeletedAt(records, n, l, number, i);
    }
    if Dead(records, n, l, number) && !AddsNumber(records[n], l, number) {
      var i :| 0 <= i < n && DeletedAt(records, n, l, number, i);
      assert DeletedAt(records, n + 1, l, number, i);
    }
    if (l, number) in records[n].deleted && !AddsNumber(records[n], l, number) {
      assert DeletedAt(records, n + 1, l, number, n);
    }
  }

  /** The pending changes say which files were ever added and which numbers are dead. */
  lemma {:induction false} PendingAt(records: seq<Edit>, l: nat, states: seq<LevelState>, n: nat)
    requires IsReplay(records, l, states) && n <= |records|
    ensures forall f :: f in states[n].added <==> Had(records, n, l, f)
    ensures forall number: nat :: number in states[n].deleted <==> Dead(records, n, l, number)
  {
    if n > 0 {
      var m := n - 1;
      PendingAt(records, l, states, m);
      assert Applied(states[m], l, records[m], states[n]);
      forall f
        ensures f in states[n].added <==> Had(records, n, l, f)
      {
        HadMore(records, m, l, f);
      }
      forall number: nat
        ensures number in states[n].deleted <==> Dead(records, n, l, number)
      {
        DeadMore(records, m, l, number);
      }
    }
  }

  /** A builder in step with history stays in step exactly if the edit adds back every
      dropped file whose number it adds. */
  lemma StepAgrees(s: LevelState, l: nat, e: Edit, next: LevelState, v: Version, w: Version)
    requires l < NUM_LEVELS && |v| == NUM_LEVELS && Agrees(s, v[l]) && Applied(s, l, e, next) && AfterEdit(v, e, w)
    ensures Agrees(next, w[l])
      <==> forall f :: f in s.added && f.number in s.deleted && AddsNumber(e, l, f.number) ==> AddsFile(e, l, f)
  {
    assert forall f :: f in w[l] <==> Keeps(v, e, l, f);
    if Agrees(next, w[l]) {
      forall f | f in s.added && f.number in s.deleted && AddsNumber(e, l, f.number)
        ensures AddsFile(e, l, f)
      {
        assert Merged([], next, f) && f in w[l] && f !in v[l];
      }
    }
  }

  /** After `n` records the builder would save what history has arrived at. */
  ghost predicate KeepsUp(states: seq<LevelState>, vs: seq<Version>, l: nat, n: nat)
  {
    n < |states| && n <= |vs| && (n > 0 ==> l < |vs[n - 1]| && Agrees(states[n], vs[n - 1][l]))
  }

  ghost predicate NothingRevivedBy(records: seq<Edit>, n: nat, l: nat)
    requires n < |records|
  {
    forall f :: !Revives(records, n, l, f)
  }

  /** One more record: in step before, the builder is in step after exactly if nothing is revived. */
  lemma KeepsUpStep(records: seq<Edit>, l: nat, states: seq<LevelState>, vs: seq<Version>, n: nat)
    requires IsReplay(records, l, states) && l < NUM_LEVELS && n < |records|
    requires IsHistory(vs, records[1..]) && IsSnapshot(records[0], vs[0])
    requires forall m :: 0 <= m < NUM_LEVELS ==> SortedBySmallest(vs[0][m])
    requires KeepsUp(states, vs, l, n)
    ensures KeepsUp(states, vs, l, n + 1) <==> NothingRevivedBy(records, n, l)
  {
    var before: Version := if n == 0 then seq(NUM_LEVELS, i => []) else vs[n - 1];
    if n == 0 {
      SnapshotStep(records[0], vs[0]);
    } else {
      assert records[1..][n - 1] == records[n];
    }
    var s, e, next := states[n], records[n], states[n + 1];
    assert AfterEdit(before, e, vs[n]) && Applied(s, l, e, next) && Agrees(s, before[l]);
    StepAgrees(s, l, e, next, before, vs[n]);
    PendingAt(records, l, states, n);
    hide Had;
    hide Dead;
    hide AddsNumber;
    hide AddsFile;
    hide Agrees;
    hide Applied;
    hide AfterEdit;
    assert NothingRevivedBy(records, n, l)
      <==> forall f :: f in s.added && f.number in s.deleted && AddsNumber(e, l, f.number) ==> AddsFile(e, l, f) by {
      assert forall f ::
        (Revives(records, n, l, f) <==>
          f in s.added && f.number in s.deleted && AddsNumber(e, l, f.number) && !AddsFile(e, l, f));
    }
  }

  /** The exact condition, record by record: the replaying builder is in step with history
      all along exactly if no record revives a file at the level. */
  lemma {:induction false} ReplayKeepsUpIff(records: seq<Edit>, l: nat, states: seq<LevelState>, vs: seq<Version>,
                                            n: nat)
    requires IsReplay(records, l, states) && l < NUM_LEVELS && records != [] && n <= |records|
    requires IsHistory(vs, records[1..]) && IsSnapshot(records[0], vs[0])
    requires forall m :: 0 <= m < NUM_LEVELS ==> SortedBySmallest(vs[0][m])
    ensures (forall i :: 0 <= i <= n ==> KeepsUp(states, vs, l, i)) <==>
      forall i :: 0 <= i < n ==> NothingRevivedBy(records, i, l)
  {
    if n > 0 {
      var m := n - 1;
      ReplayKeepsUpIff(records, l, states, vs, m);
      if KeepsUp(states, vs, l, m) {
        KeepsUpStep(records, l, states, vs, m);
      }
      hide KeepsUp;
      hide NothingRevivedBy;
      assert KeepsUp(states, vs, l, m) ==> (KeepsUp(states, vs, l, n) <==> NothingRevivedBy(records, m, l));
    }
  }

  /** A manifest that adds no number twice, as the store's never does, revives nothing. */
  lemma NothingRevived(records: seq<Edit>, l: nat, i: nat)
    requires NeverAddedTwice(records) && i < |records|
    ensures NothingRevivedBy(records, i, l)
  {
    forall f, g | Had(records, i, l, f) && AddsFile(records[i], l, g)
      ensures g.number != f.number
    {
      var j :| 0 <= j < i && AddsFile(records[j], l, f);
    }
  }

  /** Without the condition, replay and history do part: a number deleted and given to
      another file at its level brings the deleted file back. */
  lemma ReaddedNumberResurrects(f: File, g: File, v: Version)
    requires f.number == g.number && f.smallest != g.smallest && |v| == NUM_LEVELS && v[0] == [f]
    requires forall l :: 0 < l < NUM_LEVELS ==> v[l] == []
    ensures exists gone, back, v2, s3 :: ReplayParts(v, f, gone, back, v2, s3)
  {
    var gone := NONE.(deleted := {(0, f.number)});
    var back := NONE.(added := [(0, g)]);
    var v1 := v[0 := []];
    var v2 := v[0 := [g]];
    var s0 := LevelState({}, []);
    var s1 := LevelState({}, [f]);
    var s2 := LevelState({f.number}, [f]);
    var s3 := LevelState({}, if BySmallestKey(f, g) then [f, g] else [g, f]);
    assert AddsFile(back, 0, g);
    assert forall l, h :: AddsFile(SnapshotOf(f), l, h) <==> l == 0 && h == f;
    assert forall l, h :: AddsFile(back, l, h) <==> l == 0 && h == g;
    assert forall l, h :: !AddsFile(gone, l, h);
    assert AfterEdit(v, gone, v1);
    assert AfterEdit(v1, back, v2);
    assert Applied(s0, 0, SnapshotOf(f), s1);
    assert Applied(s1, 0, gone, s2);
    assert Applied(s2, 0, back, s3);
    assert ReplayParts(v, f, gone, back, v2, s3);
  }

  /** History applies `gone` then `back` to `v` and ends without `f`; a builder
      that replays the snapshot and the two edits still holds `f`. */
  ghost predicate ReplayParts(v: Version, f: File, gone: Edit, back: Edit, v2: Version, s3: LevelState)
  {
    && IsSnapshot(SnapshotOf(f), v)
    && (exists v1 :: AfterEdit(v, gone, v1) && AfterEdit(v1, back, v2)) && f !in v2[0]
    && (exists s1, s2 ::
      Applied(LevelState({}, []), 0, SnapshotOf(f), s1) && Applied(s1, 0, gone, s2) && Applied(s2, 0, back, s3))
    && Merged([], s3, f)
  }

  const NONE: Edit := Edit(None, None, None, None, None, [], {}, [])

  function SnapshotOf(f: File): Edit
  {
    NONE.(added := [(0, f)])
  }
}
