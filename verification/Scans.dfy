/** Iterating over the store (db/db_impl.cc, NewInternalIterator and NewIterator):
    the user's iterator over the merged memtables and files. */
module Scans {
  import opened Wrappers
  import opened Keys
  import opened Files
  import opened VersionSteps
  import opened History
  import opened Store
  import opened InputMerge
  import opened Runs
  import DbIter
  import Merger

  /** Some table of the store holds the entry. */
  ghost predicate InStore(s: State, x: Entry)
  {
    x in s.mem || (s.imm.Some? && x in s.imm.value) || InVersion(s.version, x)
  }

  lemma StoreIsWrites(s: State, x: Entry)
    requires WritesOk(s) && TablesOk(s) && InStore(s, x)
    ensures IsWrite(Writes(s), |Writes(s)|, x)
    ensures x in s.mem <==> x.seqno > s.memStart
    ensures s.imm.Some? && x in s.imm.value <==> s.flushed < x.seqno <= s.memStart
    ensures InVersion(s.version, x) <==> x.seqno <= s.flushed
  {
  }

  /** A write past the flushed ones is in one of the memtables. */
  lemma RecentIsHeld(s: State, x: Entry)
    requires WritesOk(s) && TablesOk(s) && IsWrite(Writes(s), s.lastSequence, x) && x.seqno > s.flushed
    ensures InStore(s, x)
  {
  }

  /** The newest visible entry of a key among all tables is the last visible write of
      the key, if that is a put. */
  lemma NewestIsLastPut(s: State, all: seq<Entry>, e: Entry)
    requires WritesOk(s) && TablesOk(s) && StrictlySorted(all) && forall x :: x in all <==> InStore(s, x)
    ensures SeekUser(all, e.user, s.lastSequence) == Some(e) && e.op.Put? <==> LastPut(Writes(s), s.lastSequence, e)
  {
    var w, snap := Writes(s), s.lastSequence;
    SeekUserFindsNewest(all, e.user, snap);
    if LastPut(w, snap, e) {
      LastPutIsHeld(s, e);
      var x := SeekUser(all, e.user, snap).value;
      StoreIsWrites(s, x);
    }
    if SeekUser(all, e.user, snap) == Some(e) && e.op.Put? {
      StoreIsWrites(s, e);
      NothingLater(s, all, e);
    }
  }

  lemma LastPutIsHeld(s: State, e: Entry)
    requires WritesOk(s) && TablesOk(s) && LastPut(Writes(s), s.lastSequence, e)
    ensures InStore(s, e)
  {
    if e.seqno > s.flushed {
      RecentIsHeld(s, e);
    } else {
      assert LastPut(Writes(s), s.flushed, e);
      assert LiveIn(s.version, e);
    }
  }

  lemma NothingLater(s: State, all: seq<Entry>, e: Entry)
    requires WritesOk(s) && TablesOk(s) && InStore(s, e) && e.op.Put? && e.seqno <= s.lastSequence
    requires forall x :: x in all <==> InStore(s, x)
    requires forall x :: x in all && x.user == e.user && x.seqno <= s.lastSequence ==> x.seqno <= e.seqno
    ensures LastPut(Writes(s), s.lastSequence, e)
  {
    var w, snap := Writes(s), s.lastSequence;
    StoreIsWrites(s, e);
    if e.seqno <= s.flushed {
      forall x | InVersion(s.version, x) && x.user == e.user
        ensures x.seqno <= e.seqno
      {
        StoreIsWrites(s, x);
        assert x in all;
      }
      assert LiveIn(s.version, e);
      assert LastPut(w, s.flushed, e);
    }
    forall i | e.seqno <= i < snap && i >= s.flushed
      ensures w[i].user != e.user
    {
      RecentIsHeld(s, w[i]);
      assert w[i] in all;
    }
  }

  /** The iterator shows exactly the visible map, whatever tables its entries are in. */
  lemma IterationIsContents(states: seq<State>, labels: seq<Label>, n: nat, all: seq<Entry>, k: Key, value: Value)
    requires IsRun(states, labels) && n < |states| && StrictlySorted(all)
    requires forall x :: x in all <==> InStore(states[n], x)
    ensures states[n].published <= |states[n].groups|
    ensures (exists v, e :: DbIter.Shows(all, states[n].lastSequence, v, e) && e.user == k && e.op == Put(value))
      <==> Expected(Visible(states[n]), k) == VersionGet.Found(value)
  {
    RunInv(states, labels, n);
    ShownIsContents(states[n], all, k, value);
  }

  lemma ShownIsContents(s: State, all: seq<Entry>, k: Key, value: Value)
    requires Inv(s) && StrictlySorted(all) && forall x :: x in all <==> InStore(s, x)
    ensures s.published <= |s.groups|
    ensures (exists v, e :: DbIter.Shows(all, s.lastSequence, v, e) && e.user == k && e.op == Put(value))
      <==> Expected(Visible(s), k) == VersionGet.Found(value)
  {
    VisiblePrefix(s);
    ContentsAreLastPuts(Writes(s), s.lastSequence, k, value);
    forall e: Entry | e.op.Put?
      ensures (exists v :: DbIter.Shows(all, s.lastSequence, v, e)) <==> LastPut(Writes(s), s.lastSequence, e)
    {
      DbIter.YieldsAreReads(all, s.lastSequence, e);
      NewestIsLastPut(s, all, e);
    }
    if Expected(Visible(s), k) == VersionGet.Found(value) {
      var e: Entry :| e.user == k && e.op == Put(value) && LastPut(Writes(s), s.lastSequence, e);
      var v :| DbIter.Shows(all, s.lastSequence, v, e);
      assert e.user == k;
    }
  }

  // ----- the iterator of DB::NewIterator -----

  /** All files of a version, level by level. */
  function FilesOf(v: Version): Level
  {
    Flatten(v)
  }

  /** The lists NewInternalIterator merges. */
  function Children(mem: seq<Entry>, imm: Option<seq<Entry>>, v: Version): seq<seq<Entry>>
  {
    [mem] + (if imm.Some? then [imm.value] else []) + ContentsOf(FilesOf(v))
  }

  lemma FileAt(v: Version, i: nat) returns (l: nat, a: nat)
    requires i < |FilesOf(v)|
    ensures l < |v| && a < |v[l]| && i == Offset(v, l) + a && FilesOf(v)[i] == v[l][a]
  {
    hide Flatten;
    FlattenMember(v, FilesOf(v)[i]);
    l, a := PlaceOf(v, i);
    FlattenAt(v, l, a);
  }

  /** Position `i` of a concatenation lies in some part. */
  lemma {:induction false} PlaceOf<T>(parts: seq<seq<T>>, i: nat) returns (l: nat, a: nat)
    requires i < |Flatten(parts)|
    ensures l < |parts| && a < |parts[l]| && i == Offset(parts, l) + a
  {
    var init := parts[..|parts| - 1];
    if i < |Flatten(init)| {
      l, a := PlaceOf(init, i);
      assert init[..l] == parts[..l];
    } else {
      l, a := |parts| - 1, i - |Flatten(init)|;
    }
  }

  /** Every file stands in one place, and an entry in one file. */
  lemma FileOnce(s: State, i: nat, j: nat, e: Entry)
    requires VersionOk(s.version) && i < |FilesOf(s.version)| && j < |FilesOf(s.version)|
    requires e in FilesOf(s.version)[i].entries && e in FilesOf(s.version)[j].entries
    ensures i == j
  {
    hide Flatten;
    hide LayeredLevels;
    hide UniqueSequences;
    var v := s.version;
    var l, a := FileAt(v, i);
    var m, b := FileAt(v, j);
    OneFilePerEntry(v, l, m, v[l][a], v[m][b], e);
    NoFileTwice(v[l]);
  }

  lemma NoFileTwice(files: Level)
    requires SortedBySmallest(files)
    ensures forall a, b :: 0 <= a < b < |files| ==> files[a] != files[b]
  {
    forall a, b | 0 <= a < b < |files|
      ensures files[a] != files[b]
    {
      assert BySmallestKey(files[a], files[b]);
    }
  }

  lemma FileEntries(s: State, x: Entry)
    requires |s.version| == NUM_LEVELS
    ensures InVersion(s.version, x) <==> exists i :: 0 <= i < |FilesOf(s.version)| && x in FilesOf(s.version)[i].entries
  {
    hide Flatten;
    var v := s.version;
    if InVersion(v, x) {
      var l: nat, f: File :| l < |v| && f in v[l] && x in f.entries;
      FlattenMember(v, f);
      var i :| 0 <= i < |FilesOf(v)| && FilesOf(v)[i] == f;
    }
    if i: nat :| i < |FilesOf(v)| && x in FilesOf(v)[i].entries {
      var l, a := FileAt(v, i);
      assert v[l][a] in v[l];
    }
  }

  lemma ChildSorted(s: State, c: nat)
    requires Inv(s) && c < |Children(s.mem, s.imm, s.version)|
    ensures StrictlySorted(Children(s.mem, s.imm, s.version)[c])
  {
    hide Inv;
    hide Children;
    hide FilesOf;
    hide StrictlySorted;
    InvTables(s);
    ChildrenAre(s.mem, s.imm, s.version);
    if c >= Extra(s.imm) {
      var l, a := FileAt(s.version, c - Extra(s.imm));
      assert s.version[l][a] in s.version[l];
      assert FileOk(s.version[l][a]);
    }
  }

  /** The lists can be merged: sorted, and no entry in two of them. */
  lemma ChildrenMergeable(s: State) returns (all: seq<Entry>)
    requires Inv(s)
    ensures Merger.SortedUnion(Children(s.mem, s.imm, s.version), all) && forall x :: x in all <==> InStore(s, x)
  {
    hide Inv;
    hide Flatten;
    hide InStore;
    hide StrictlySorted;
    var children := Children(s.mem, s.imm, s.version);
    forall x
      ensures x in Flatten(children) <==> InStore(s, x)
    {
      FlattenMember(children, x);
      InSomeChild(s, x);
    }
    forall x: Entry, y: Entry | x in Flatten(children) && y in Flatten(children) && x.seqno == y.seqno
      ensures x == y
    {
      OneWrite(s, x, y);
    }
    all := SortedUnionExists(Flatten(children));
    hide Children;
    forall i | 0 <= i < |children|
      ensures StrictlySorted(children[i])
    {
      ChildSorted(s, i);
    }
    forall i, j, e | 0 <= i < |children| && 0 <= j < |children| && e in children[i] && e in children[j]
      ensures i == j
    {
      OneChild(s, i, j, e);
    }
    forall e | e in all
      ensures exists i :: 0 <= i < |children| && e in children[i]
    {
      InSomeChild(s, e);
    }
    forall i, j | 0 <= i < |children| && 0 <= j < |children[i]|
      ensures children[i][j] in all
    {
      assert children[i][j] in children[i];
      InSomeChild(s, children[i][j]);
    }
  }

  lemma OneWrite(s: State, x: Entry, y: Entry)
    requires Inv(s) && InStore(s, x) && InStore(s, y) && x.seqno == y.seqno
    ensures x == y
  {
    hide Inv;
    hide WritesOk;
    hide TablesOk;
    InvTables(s);
    hide InStore;
    StoreIsWrites(s, x);
    StoreIsWrites(s, y);
  }

  lemma InvTables(s: State)
    requires Inv(s)
    ensures WritesOk(s) && TablesOk(s) && VersionOk(s.version) && |s.version| == NUM_LEVELS && s.published <= |s.groups|
  {
  }

  function Extra(imm: Option<seq<Entry>>): nat
  {
    if imm.Some? then 2 else 1
  }

  lemma ChildrenAre(mem: seq<Entry>, imm: Option<seq<Entry>>, v: Version)
    ensures var children, files := Children(mem, imm, v), FilesOf(v);
      && |children| == Extra(imm) + |files| && children[0] == mem && (imm.Some? ==> children[1] == imm.value)
      && forall i :: 0 <= i < |files| ==> children[Extra(imm) + i] == files[i].entries
  {
    hide FilesOf;
  }

  /** Where an entry of a child comes from. */
  lemma ChildHas(s: State, c: nat, e: Entry)
    requires Inv(s) && c < |Children(s.mem, s.imm, s.version)| && e in Children(s.mem, s.imm, s.version)[c]
    ensures InStore(s, e) && (c == 0 ==> e.seqno > s.memStart)
    ensures c == 1 && s.imm.Some? ==> s.flushed < e.seqno <= s.memStart
    ensures c >= Extra(s.imm) ==> var i := c - Extra(s.imm);
      e.seqno <= s.flushed && i < |FilesOf(s.version)| && e in FilesOf(s.version)[i].entries
  {
    hide Inv;
    hide WritesOk;
    hide TablesOk;
    hide VersionOk;
    InvTables(s);
    hide InVersion;
    hide IsWrite;
    hide FilesOf;
    ChildrenAre(s.mem, s.imm, s.version);
    hide Children;
    if c >= Extra(s.imm) {
      InFile(s, c - Extra(s.imm), e);
    }
    StoreIsWrites(s, e);
  }

  lemma InSomeChild(s: State, x: Entry)
    requires Inv(s)
    ensures var children := Children(s.mem, s.imm, s.version);
      InStore(s, x) <==> exists i :: 0 <= i < |children| && x in children[i]
  {
    var children := Children(s.mem, s.imm, s.version);
    hide Inv;
    hide WritesOk;
    hide TablesOk;
    hide VersionOk;
    InvTables(s);
    hide FilesOf;
    hide InVersion;
    ChildrenAre(s.mem, s.imm, s.version);
    hide Children;
    FileEntries(s, x);
    if InVersion(s.version, x) {
      var i :| 0 <= i < |FilesOf(s.version)| && x in FilesOf(s.version)[i].entries;
      assert x in children[Extra(s.imm) + i];
    }
    if i: nat :| i < |children| && x in children[i] {
      ChildHas(s, i, x);
    }
  }

  lemma OneChild(s: State, i: nat, j: nat, e: Entry)
    requires Inv(s) && i < |Children(s.mem, s.imm, s.version)| && j < |Children(s.mem, s.imm, s.version)|
    requires e in Children(s.mem, s.imm, s.version)[i] && e in Children(s.mem, s.imm, s.version)[j]
    ensures i == j
  {
    hide Inv;
    hide WritesOk;
    hide TablesOk;
    hide VersionOk;
    InvTables(s);
    hide InStore;
    hide Children;
    hide FilesOf;
    ChildHas(s, i, e);
    ChildHas(s, j, e);
    if i >= Extra(s.imm) && j >= Extra(s.imm) {
      FileOnce(s, i - Extra(s.imm), j - Extra(s.imm), e);
    }
  }

  lemma InFile(s: State, i: nat, e: Entry)
    requires |s.version| == NUM_LEVELS && i < |FilesOf(s.version)| && e in FilesOf(s.version)[i].entries
    ensures InVersion(s.version, e)
  {
    FileEntries(s, e);
  }

  ghost predicate Ascending(pairs: seq<(Key, Value)>)
  {
    forall i, j :: 0 <= i < j < |pairs| ==> pairs[i].0 < pairs[j].0
  }

  /** NewIterator, SeekToFirst, Next, ...: the visible map, key by key. */
  method Scan(ghost s: State, mem: seq<Entry>, imm: Option<seq<Entry>>, version: Version, snapshot: nat)
    returns (pairs: seq<(Key, Value)>)
    requires Inv(s) && mem == s.mem && imm == s.imm && version == s.version && snapshot == s.lastSequence
    ensures s.published <= |s.groups| && Ascending(pairs)
    ensures forall k, value :: (k, value) in pairs <==> k in Contents(Visible(s)) && Contents(Visible(s))[k] == value
  {
    hide Inv;
    hide Children;
    hide DbIter.Yields;
    hide Expected;
    hide Contents;
    ghost var all := ChildrenMergeable(s);
    var merging := new Merger.MergingIterator(Children(mem, imm, version), all);
    var entries := Merger.ReadAll(merging);
    var it := new DbIter.DBIter(entries, snapshot);
    pairs := [];
    it.SeekToFirst();
    ghost var v: nat := 0;
    while it.valid
      invariant it.entries == all && it.snapshot == snapshot && fresh(it) && it.StandsAt(v) && |pairs| == v
      invariant it.valid ==> it.direction == DbIter.Forward
      invariant forall i :: 0 <= i < v ==> PairAt(all, snapshot, i, pairs[i])
      decreases |it.All()| - v
    {
      it.Current(v);
      pairs := pairs + [(it.Key(), it.Value())];
      assert PairAt(all, snapshot, v, pairs[v]);
      it.Next(v);
      v := v + 1;
    }
    ScanIsContents(s, all, pairs);
  }

  /** The pair is what the iterator shows in place `v`. */
  ghost predicate PairAt(all: seq<Entry>, snapshot: nat, v: nat, pair: (Key, Value))
  {
    DbIter.Shows(all, snapshot, v, Entry(pair.0, if v < |DbIter.Yields(all, snapshot, |all|)| then
      all[DbIter.Yields(all, snapshot, |all|)[v]].seqno else 0, Put(pair.1)))
  }

  lemma PairsAscend(all: seq<Entry>, snap: nat, pairs: seq<(Key, Value)>)
    requires StrictlySorted(all) && |pairs| == |DbIter.Yields(all, snap, |all|)|
    requires forall i :: 0 <= i < |pairs| ==> PairAt(all, snap, i, pairs[i])
    ensures Ascending(pairs)
  {
    var y := DbIter.Yields(all, snap, |all|);
    hide DbIter.Yields;
    forall i, j | 0 <= i < j < |pairs|
      ensures pairs[i].0 < pairs[j].0
    {
      assert PairAt(all, snap, i, pairs[i]) && PairAt(all, snap, j, pairs[j]);
      DbIter.UsersInOrder(all, y[i], y[j]);
      assert DbIter.IsYield(all, snap, y[i]) && DbIter.IsYield(all, snap, y[j]);
    }
  }

  lemma PairsShown(all: seq<Entry>, snap: nat, pairs: seq<(Key, Value)>, k: Key, value: Value)
    requires |pairs| == |DbIter.Yields(all, snap, |all|)|
    requires forall i :: 0 <= i < |pairs| ==> PairAt(all, snap, i, pairs[i])
    ensures (k, value) in pairs <==> exists v, e :: DbIter.Shows(all, snap, v, e) && e.user == k && e.op == Put(value)
  {
    hide DbIter.Yields;
    if (k, value) in pairs {
      var i :| 0 <= i < |pairs| && pairs[i] == (k, value);
      assert PairAt(all, snap, i, pairs[i]);
    }
    if v: nat, e: Entry :| DbIter.Shows(all, snap, v, e) && e.user == k && e.op == Put(value) {
      assert PairAt(all, snap, v, pairs[v]);
      assert pairs[v] == (k, value);
    }
  }

  lemma ScanIsContents(s: State, all: seq<Entry>, pairs: seq<(Key, Value)>)
    requires Inv(s) && StrictlySorted(all) && forall x :: x in all <==> InStore(s, x)
    requires |pairs| == |DbIter.Yields(all, s.lastSequence, |all|)|
    requires forall i :: 0 <= i < |pairs| ==> PairAt(all, s.lastSequence, i, pairs[i])
    ensures s.published <= |s.groups| && Ascending(pairs)
    ensures forall k, value :: (k, value) in pairs <==> k in Contents(Visible(s)) && Contents(Visible(s))[k] == value
  {
    hide Inv;
    hide DbIter.Yields;
    hide PairAt;
    hide DbIter.Shows;
    hide Contents;
    hide WritesOk;
    hide TablesOk;
    hide VersionOk;
    InvTables(s);
    PairsAscend(all, s.lastSequence, pairs);
    forall k, value
      ensures (k, value) in pairs <==> k in Contents(Visible(s)) && Contents(Visible(s))[k] == value
    {
      PairsShown(all, s.lastSequence, pairs, k, value);
      ShownIsContents(s, all, k, value);
    }
  }
}
