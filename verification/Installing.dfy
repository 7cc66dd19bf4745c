/** LogAndApply without the state (db/version_set.cc): filling in an edit, building
    the next version, and why its overlap assertion cannot fail for a flush, a
    trivial move, a compaction's results or a recovery. */
module Installing {
  import opened Wrappers
  import opened Keys
  import opened Files
  import opened VersionSteps
  import opened Builder
  import opened Store
  import Picking

  /** What the overlap assertion of MaybeAddFile needs of a version and an edit:
      the files that stay have distinct numbers and, past level 0, lie apart. */
  ghost predicate Installable(v: Version, e: Edit)
  {
    && |v| == NUM_LEVELS && (forall l :: 0 <= l < NUM_LEVELS ==> SortedBySmallest(v[l]))
    && (forall l, f :: 0 <= l < NUM_LEVELS && AddsFile(e, l, f) ==> f !in v[l])
    && (forall l, f :: 0 <= l < NUM_LEVELS && Keeps(v, e, l, f) ==> f.smallest.user <= f.largest.user)
    && (forall l :: 0 <= l < NUM_LEVELS ==> DistinctNumbers(KeptSet(v, e, l)))
    && (forall l :: 0 < l < NUM_LEVELS ==> PairwiseDisjoint(KeptSet(v, e, l)))
  }

  ghost function KeptSet(v: Version, e: Edit, l: nat): iset<File>
    requires |v| == NUM_LEVELS && l < NUM_LEVELS
  {
    iset f | Keeps(v, e, l, f)
  }

  ghost predicate AddsDistinct(e: Edit)
  {
    forall l, f, g :: AddsFile(e, l, f) && AddsFile(e, l, g) ==> f.number == g.number ==> f == g
  }

  lemma InstallableCanSave(v: Version, e: Edit, l: nat, s: LevelState)
    requires Installable(v, e) && l < NUM_LEVELS && Applied(LevelState({}, []), l, e, s)
    ensures CanSave(l, v[l], s) && forall f :: Merged(v[l], s, f) <==> Keeps(v, e, l, f)
  {
    forall f
      ensures Merged(v[l], s, f) <==> Keeps(v, e, l, f)
    {
    }
    assert MergedSet(v[l], s) == KeptSet(v, e, l);
  }

  lemma MoveInstallable(s: State, c: Picking.Compaction, lo: Key, hi: Key, f: File, edit: Edit)
    requires VersionOk(s.version) && NumbersDistinct(s.version) && Replaceable(s.version, c, lo, hi)
    requires c.inputs0 == [f] && c.inputs1 == [] && f in s.version[c.level] && OutputsOk(c, [f])
    requires edit.deleted == {(c.level, f.number)}
    requires forall l, g :: AddsFile(edit, l, g) <==> l == c.level + 1 && g == f
    ensures Installable(s.version, edit) && AddsDistinct(edit)
  {
    var v := s.version;
    forall l, g | 0 <= l < NUM_LEVELS
      ensures Keeps(v, edit, l, g) <==> Stays(v, c, [f], l, g)
    {
      MoveKeepsIsStays(v, c, f, edit, l, g);
    }
    ReplacementInstallable(s, c, lo, hi, [f], edit);
    assert forall l, g :: 0 <= l < NUM_LEVELS && Stays(v, c, [f], l, g) ==> g in v[l] || g == f;
  }

  /** The fields LogAndApply fills in before it writes the record. */
  function Stamp(edit: Edit, logNumber: nat, nextFile: nat, lastSequence: nat): (e: Edit)
    requires EditOk(edit) && edit.comparator.None? && (edit.prevLogNumber.None? || edit.prevLogNumber == Some(0))
    ensures EditOk(e) && e.deleted == edit.deleted && e.added == edit.added && e.compactPointers == edit.compactPointers
    ensures e.logNumber == Some(if edit.logNumber.Some? then edit.logNumber.value else logNumber)
    ensures e.prevLogNumber == Some(0) && e.comparator.None? && e.nextFile == Some(nextFile)
    ensures e.lastSequence == Some(lastSequence)
  {
    Edit(None, if edit.logNumber.Some? then edit.logNumber else Some(logNumber), Some(0), Some(nextFile),
         Some(lastSequence), edit.compactPointers, edit.deleted, edit.added)
  }

  /** A builder over one edit; its overlap assertion cannot fail. */
  method BuildVersion(v: Version, pointers: seq<Option<IKey>>, e: Edit)
    returns (next: Version, newPointers: seq<Option<IKey>>)
    requires |pointers| == NUM_LEVELS && EditOk(e) && Installable(v, e) && AddsDistinct(e)
    ensures AfterEdit(v, e, next) && newPointers == MovePointers(pointers, e.compactPointers)
    ensures forall l :: 0 < l < NUM_LEVELS ==> DisjointSorted(next[l])
  {
    var builder := new VersionBuilder(v, pointers);
    forall l | 0 <= l < NUM_LEVELS
      ensures CanAdd(builder.levels[l], l, e)
    {
    }
    builder.Apply(e);
    forall l | 0 <= l < NUM_LEVELS
      ensures CanSave(l, v[l], builder.levels[l])
      ensures forall f :: Merged(v[l], builder.levels[l], f) <==> Keeps(v, e, l, f)
    {
      InstallableCanSave(v, e, l, builder.levels[l]);
    }
    next := builder.SaveTo();
    newPointers := builder.compactPointers;
  }

  lemma FlushInstallable(s: State, level: nat, f: Option<File>, e: Edit)
    requires VersionOk(s.version) && NumbersOk(s) && level < NUM_LEVELS && e.deleted == {}
    requires forall l, g :: AddsFile(e, l, g) <==> l == level && f == Some(g)
    requires f.Some? ==> FileOk(f.value) && f.value.number >= s.nextFile && Placeable(s.version, level, f.value)
    ensures Installable(s.version, e) && AddsDistinct(e)
  {
    var v := s.version;
    forall l, g | 0 <= l < NUM_LEVELS
      ensures Keeps(v, e, l, g) <==> g in v[l] || (l == level && f == Some(g))
    {
      assert !Removes(e, l, g.number);
    }
    forall l, g | 0 <= l < NUM_LEVELS && Keeps(v, e, l, g)
      ensures g.smallest.user <= g.largest.user
    {
      assert FileOk(g);
      EntryInRange(g, g.entries[0]);
    }
    forall l | 0 < l < NUM_LEVELS
      ensures PairwiseDisjoint(KeptSet(v, e, l))
    {
      FlushApart(v, level, f, e, l);
    }
    forall l | 0 <= l < NUM_LEVELS
      ensures DistinctNumbers(KeptSet(v, e, l))
    {
    }
  }

  lemma FlushApart(v: Version, level: nat, f: Option<File>, e: Edit, l: nat)
    requires LevelsOk(v) && 0 < l < NUM_LEVELS
    requires forall g :: Keeps(v, e, l, g) <==> g in v[l] || (l == level && f == Some(g))
    requires f.Some? ==> FileOk(f.value) && Placeable(v, level, f.value)
    ensures PairwiseDisjoint(KeptSet(v, e, l))
  {
    forall g, h | g in KeptSet(v, e, l) && h in KeptSet(v, e, l) && g != h
      ensures g.largest.user < h.smallest.user || h.largest.user < g.smallest.user
    {
      if g in v[l] && h in v[l] {
        PairDisjoint(v[l], g, h);
      } else {
        var other := if g in v[l] then g else h;
        assert !MeetsRange(other, f.value.smallest.user, f.value.largest.user);
      }
    }
  }

  /** The numbers of the outputs are pending, so they clash with nothing. */
  lemma FinishInstallable(s: State, c: Picking.Compaction, lo: Key, hi: Key, outputs: Level, numbers: set<nat>, e: Edit)
    requires VersionOk(s.version) && NumbersOk(s) && Replaceable(s.version, c, lo, hi)
    requires ReplacesInputs(s.version, c, outputs, e) && OutputsOk(c, outputs)
    requires NumbersIn(outputs, numbers) && numbers <= s.pending
    ensures Installable(s.version, e) && AddsDistinct(e)
  {
    var v := s.version;
    forall l, g | 0 <= l < NUM_LEVELS
      ensures Keeps(v, e, l, g) <==> Stays(v, c, outputs, l, g)
    {
      KeepsIsStays(s, c, outputs, numbers, e, l, g);
    }
    OutputNumbersDistinct(outputs, numbers);
    ReplacementInstallable(s, c, lo, hi, outputs, e);
    forall l, f | 0 <= l < NUM_LEVELS && AddsFile(e, l, f)
      ensures f !in v[l]
    {
      assert f.number in numbers;
    }
    forall l, f, g |
      0 <= l < NUM_LEVELS && Stays(v, c, outputs, l, f) && Stays(v, c, outputs, l, g) && f.number == g.number
      ensures f == g
    {
      assert f in outputs ==> f.number in numbers;
      assert g in outputs ==> g.number in numbers;
    }
  }

  lemma OutputNumbersDistinct(outputs: Level, numbers: set<nat>)
    requires NumbersIn(outputs, numbers)
    ensures forall f, g :: f in outputs && g in outputs && f.number == g.number ==> f == g
  {
    forall f, g | f in outputs && g in outputs && f.number == g.number
      ensures f == g
    {
      var i :| 0 <= i < |outputs| && outputs[i] == f;
      var j :| 0 <= j < |outputs| && outputs[j] == g;
    }
  }

  /** Replacing inputs by outputs keeps ranges proper and levels apart. */
  lemma ReplacementInstallable(s: State, c: Picking.Compaction, lo: Key, hi: Key, outputs: Level, e: Edit)
    requires LevelsOk(s.version) && Replaceable(s.version, c, lo, hi) && OutputsOk(c, outputs)
    requires forall l, g :: 0 <= l < NUM_LEVELS ==> (Keeps(s.version, e, l, g) <==> Stays(s.version, c, outputs, l, g))
    ensures forall l, f :: 0 <= l < NUM_LEVELS && Keeps(s.version, e, l, f) ==> f.smallest.user <= f.largest.user
    ensures forall l :: 0 < l < NUM_LEVELS ==> PairwiseDisjoint(KeptSet(s.version, e, l))
  {
    var v := s.version;
    forall l, g | 0 <= l < NUM_LEVELS && Keeps(v, e, l, g)
      ensures g.smallest.user <= g.largest.user
    {
      assert Stays(v, c, outputs, l, g);
      assert FileOk(g);
      EntryInRange(g, g.entries[0]);
    }
    InputsAreFiles(v, c);
    forall l | 0 < l < NUM_LEVELS
      ensures PairwiseDisjoint(KeptSet(v, e, l))
    {
      forall g, h | g in KeptSet(v, e, l) && h in KeptSet(v, e, l) && g != h
        ensures g.largest.user < h.smallest.user || h.largest.user < g.smallest.user
      {
        assert Stays(v, c, outputs, l, g) && Stays(v, c, outputs, l, h);
        if l == c.level + 1 {
          ReplaceApart(v[l], c, lo, hi, outputs, g, h);
        } else {
          PairDisjoint(v[l], g, h);
        }
      }
    }
  }

  lemma InputsAreFiles(v: Version, c: Picking.Compaction)
    requires LevelsOk(v) && c.level < NUM_LEVELS - 1
    requires forall f :: f in c.inputs0 ==> f in v[c.level]
    requires forall f :: f in c.inputs1 ==> f in v[c.level + 1]
    ensures FilesOk(c.Inputs())
  {
  }

  lemma SameKept(v: Version, edit: Edit, e: Edit)
    requires Installable(v, edit) && AddsDistinct(edit) && e.deleted == edit.deleted && e.added == edit.added
    ensures Installable(v, e) && AddsDistinct(e)
  {
    forall l, f
      ensures AddsFile(e, l, f) <==> AddsFile(edit, l, f)
    {
    }
    forall l, f | 0 <= l < NUM_LEVELS
      ensures Keeps(v, e, l, f) <==> Keeps(v, edit, l, f)
    {
      assert AddsNumber(e, l, f.number) <==> AddsNumber(edit, l, f.number);
    }
    forall l | 0 <= l < NUM_LEVELS
      ensures KeptSet(v, e, l) == KeptSet(v, edit, l)
    {
    }
  }
}
