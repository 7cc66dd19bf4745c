/** The input of a compaction (db/version_set.cc, MakeInputIterator): the entries
    of all input files, read through a merging iterator. */
module InputMerge {
  import opened Keys
  import opened Files
  import opened VersionSteps
  import opened Store
  import Merger
  import MemTable
  import Picking

  /** Entries with one sequence number are one entry. */
  ghost predicate OnePerSequence(s: seq<Entry>)
  {
    forall x, y :: x in s && y in s && x.seqno == y.seqno ==> x == y
  }

  /** Any list of entries can be sorted: insert them one by one. */
  lemma {:induction false} SortedUnionExists(s: seq<Entry>) returns (all: seq<Entry>)
    requires OnePerSequence(s)
    ensures StrictlySorted(all) && forall e :: e in all <==> e in s
  {
    if s == [] {
      all := [];
    } else {
      var last := s[|s| - 1];
      var rest := SortedUnionExists(s[..|s| - 1]);
      assert s == s[..|s| - 1] + [last];
      if last in rest {
        all := rest;
      } else {
        MemTable.AddKeepsOrder(rest, last);
        all := MemTable.Add(rest, last);
      }
    }
  }

  /** The files are sorted, and an entry occurs in only one of them. */
  ghost predicate Mergeable(files: Level)
  {
    && FilesOk(files) && OnePerSequence(Flatten(ContentsOf(files)))
    && forall i, j, e :: 0 <= i < |files| && 0 <= j < |files| && e in files[i].entries && e in files[j].entries ==>
      i == j
  }

  /** One child per file: the source reads a level's disjoint files through one
      concatenating iterator, which yields the same entries. */
  method MergeFiles(files: Level) returns (merged: seq<Entry>)
    requires Mergeable(files)
    ensures StrictlySorted(merged) && forall e :: e in merged <==> OutputEntry(files, e)
  {
    var children := ContentsOf(files);
    ghost var all := SortedUnionExists(Flatten(children));
    forall e
      ensures e in all <==> exists i :: 0 <= i < |children| && e in children[i]
    {
      FlattenMember(children, e);
    }
    forall i, j | 0 <= i < |children| && 0 <= j < |children[i]|
      ensures children[i][j] in all
    {
      assert children[i][j] in children[i];
    }
    forall i | 0 <= i < |children|
      ensures StrictlySorted(children[i])
    {
      assert FileOk(files[i]);
    }
    forall e
      ensures e in all <==> OutputEntry(files, e)
    {
      PartMember(files, e);
    }
    var it := new Merger.MergingIterator(children, all);
    merged := Merger.ReadAll(it);
  }

  lemma InputsMergeable(v: Version, c: Picking.Compaction, lo: Key, hi: Key, w: seq<Entry>, n: nat)
    requires VersionOk(v) && Replaceable(v, c, lo, hi) && Represents(v, w, n)
    requires Distinct(c.inputs0) && Distinct(c.inputs1)
    ensures Mergeable(c.Inputs())
  {
    hide Flatten;
    var files := c.Inputs();
    forall i | 0 <= i < |files|
      ensures FileOk(files[i]) && files[i] in v[if i < |c.inputs0| then c.level else c.level + 1]
    {
      assert i < |c.inputs0| ==> files[i] in c.inputs0;
      assert i >= |c.inputs0| ==> files[i] in c.inputs1;
    }
    forall i, j, e | 0 <= i < |files| && 0 <= j < |files| && e in files[i].entries && e in files[j].entries
      ensures i == j
    {
      var l, m := if i < |c.inputs0| then c.level else c.level + 1, if j < |c.inputs0| then c.level else c.level + 1;
      OneFilePerEntry(v, l, m, files[i], files[j], e);
    }
    forall x, y | x in Flatten(ContentsOf(files)) && y in Flatten(ContentsOf(files)) && x.seqno == y.seqno
      ensures x == y
    {
      InputIsWrite(v, c, w, n, x);
      InputIsWrite(v, c, w, n, y);
    }
  }

  lemma InputIsWrite(v: Version, c: Picking.Compaction, w: seq<Entry>, n: nat, x: Entry)
    requires Represents(v, w, n) && |v| == NUM_LEVELS && c.level < NUM_LEVELS - 1
    requires forall f :: f in c.inputs0 ==> f in v[c.level]
    requires forall f :: f in c.inputs1 ==> f in v[c.level + 1]
    requires x in Flatten(ContentsOf(c.Inputs()))
    ensures IsWrite(w, n, x)
  {
    PartMember(c.Inputs(), x);
    var f :| f in c.Inputs() && x in f.entries;
    assert f in v[c.level] || f in v[c.level + 1];
    assert InVersion(v, x);
  }

  lemma OneFilePerEntry(v: Version, l: nat, m: nat, f: File, g: File, e: Entry)
    requires VersionOk(v) && l < NUM_LEVELS && m < NUM_LEVELS && f in v[l] && g in v[m]
    requires e in f.entries && e in g.entries
    ensures l == m && f == g
  {
    if l == m && l > 0 && f != g {
      PairDisjoint(v[l], f, g);
      EntryInRange(f, e);
      EntryInRange(g, e);
    }
    assert l < m ==> !NewerFile(f, g);
    assert m < l ==> !NewerFile(g, f);
  }

  /** The parts of a sorted list are sorted. */
  lemma PartSorted(parts: seq<seq<Entry>>, i: nat)
    requires StrictlySorted(Flatten(parts)) && i < |parts|
    ensures StrictlySorted(parts[i]) && forall e :: e in parts[i] ==> e in Flatten(parts)
  {
    hide Flatten;
    hide EntryBefore;
    var all, off := Flatten(parts), Offset(parts, i);
    forall a | 0 <= a < |parts[i]|
      ensures parts[i][a] in all
    {
      FlattenAt(parts, i, a);
    }
    forall a, b | 0 <= a < b < |parts[i]|
      ensures EntryBefore(parts[i][a], parts[i][b])
    {
      FlattenAt(parts, i, a);
      FlattenAt(parts, i, b);
      assert all[off + a] == parts[i][a] && all[off + b] == parts[i][b];
    }
  }
}
