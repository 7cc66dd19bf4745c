/** Which entries a compaction may drop (db/db_impl.cc, the loop of
    DoCompactionWork; db/version_set.cc, IsBaseLevelForKey, ShouldStopBefore). */
module Drop {
  import opened Keys
  import opened Files

  /** A full scan: no file of the deeper levels has `k` in its key range. */
  ghost predicate IsBaseLevel(deeper: seq<Level>, k: Key)
  {
    forall l, f :: 0 <= l < |deeper| && f in deeper[l] ==> !Covers(f, k)
  }

  /** Rule (A): a newer entry of the same key hides this one from every reader. */
  predicate Hidden(input: seq<Entry>, i: nat, smallestSnapshot: nat)
    requires i < |input|
  {
    i > 0 && input[i - 1].user == input[i].user && input[i - 1].seqno <= smallestSnapshot
  }

  /** A deletion marker with nothing left below it to delete. */
  ghost predicate ObsoleteMarker(e: Entry, smallestSnapshot: nat, deeper: seq<Level>)
  {
    e.op.Delete? && e.seqno <= smallestSnapshot && IsBaseLevel(deeper, e.user)
  }

  ghost predicate Dropped(input: seq<Entry>, i: nat, smallestSnapshot: nat, deeper: seq<Level>)
    requires i < |input|
  {
    Hidden(input, i, smallestSnapshot) || ObsoleteMarker(input[i], smallestSnapshot, deeper)
  }

  /** What is kept of the first `n` entries of the merged input. */
  ghost function Survivors(input: seq<Entry>, n: nat, smallestSnapshot: nat, deeper: seq<Level>): seq<Entry>
    requires n <= |input|
  {
    if n == 0 then []
    else
      Survivors(input, n - 1, smallestSnapshot, deeper)
      + if Dropped(input, n - 1, smallestSnapshot, deeper) then [] else [input[n - 1]]
  }

  lemma {:induction false} SurvivorIff(input: seq<Entry>, n: nat, snap: nat, deeper: seq<Level>, e: Entry)
    requires n <= |input|
    ensures e in Survivors(input, n, snap, deeper) <==>
      exists i :: 0 <= i < n && input[i] == e && !Dropped(input, i, snap, deeper)
  {
    if n > 0 {
      SurvivorIff(input, n - 1, snap, deeper, e);
    }
  }

  /** The visible, undeleted entries: what readers at `snapshot` are served. */
  ghost predicate Live(es: iset<Entry>, snapshot: nat, e: Entry)
  {
    && e in es && e.seqno <= snapshot && e.op.Put?
    && forall x :: x in es && x.user == e.user && x.seqno <= snapshot ==> x.seqno <= e.seqno
  }

  ghost predicate DistinctSequences(es: iset<Entry>)
  {
    forall x, y :: x in es && y in es && x.user == y.user && x.seqno == y.seqno ==> x == y
  }

  ghost function Members(s: seq<Entry>): iset<Entry>
  {
    iset e | e in s
  }

  /** No obsolete marker of the input has older entries outside the input. */
  ghost predicate NothingBelowMarkers(input: seq<Entry>, others: iset<Entry>, snap: nat, deeper: seq<Level>)
  {
    forall t, o :: t in input && o in others && t.user == o.user && ObsoleteMarker(t, snap, deeper) ==>
      o.seqno > t.seqno
  }

  /** An entry with a newer input entry of its key at or below the smallest
      snapshot is hidden. */
  lemma NewerHides(input: seq<Entry>, j: nat, i: nat, snap: nat)
    requires StrictlySorted(input) && j < i < |input|
    requires input[j].user == input[i].user && input[j].seqno <= snap
    ensures Hidden(input, i, snap)
  {
    assert j == i - 1 || EntryBefore(input[j], input[i - 1]);
    assert EntryBefore(input[i - 1], input[i]);
  }

  /** The first entry of a key that a reader at `s` may see. */
  lemma {:induction false} FirstVisible(input: seq<Entry>, m: nat, s: nat) returns (i: nat)
    requires StrictlySorted(input) && m < |input| && input[m].seqno <= s
    ensures i <= m && input[i].user == input[m].user && input[i].seqno <= s
    ensures i > 0 && input[i - 1].user == input[i].user ==> input[i - 1].seqno > s
    ensures input[m].seqno <= input[i].seqno
  {
    i := m;
    if m > 0 && input[m - 1].user == input[m].user && input[m - 1].seqno <= s {
      assert EntryBefore(input[m - 1], input[m]);
      i := FirstVisible(input, m - 1, s);
    }
  }

  /** The drop loop changes nothing for any reader at or above the smallest
      snapshot, whatever entries live outside the compaction. */
  lemma DropPreservesReads(input: seq<Entry>, others: iset<Entry>, smallestSnapshot: nat, deeper: seq<Level>,
                           s: nat, e: Entry)
    requires StrictlySorted(input) && DistinctSequences(others + Members(input))
    requires NothingBelowMarkers(input, others, smallestSnapshot, deeper)
    requires s >= smallestSnapshot
    ensures Live(others + Members(input), s, e) <==>
            Live(others + Members(Survivors(input, |input|, smallestSnapshot, deeper)), s, e)
  {
    var before := others + Members(input);
    var kept := Survivors(input, |input|, smallestSnapshot, deeper);
    var after := others + Members(kept);
    forall x
      ensures x in kept ==> x in input
    {
      SurvivorIff(input, |input|, smallestSnapshot, deeper, x);
    }
    if Live(before, s, e) && e in input {
      LiveSurvives(input, others, smallestSnapshot, deeper, s, e);
    }
    if Live(after, s, e) {
      forall x | x in before && x.user == e.user && x.seqno <= s
        ensures x.seqno <= e.seqno
      {
        if x in input {
          NothingResurfaces(input, others, smallestSnapshot, deeper, s, e, x);
        }
      }
    }
  }

  lemma LiveSurvives(input: seq<Entry>, others: iset<Entry>, snap: nat, deeper: seq<Level>, s: nat, e: Entry)
    requires StrictlySorted(input) && DistinctSequences(others + Members(input)) && s >= snap
    requires e in input && Live(others + Members(input), s, e)
    ensures e in Survivors(input, |input|, snap, deeper)
  {
    var i :| 0 <= i < |input| && input[i] == e;
    assert i > 0 ==> EntryBefore(input[i - 1], e) && input[i - 1] in others + Members(input);
    SurvivorIff(input, |input|, snap, deeper, e);
  }

  /** No dropped entry was covering up the older entry `e`. */
  lemma NothingResurfaces(input: seq<Entry>, others: iset<Entry>, snap: nat, deeper: seq<Level>,
                          s: nat, e: Entry, x: Entry)
    requires StrictlySorted(input) && s >= snap
    requires NothingBelowMarkers(input, others, snap, deeper)
    requires Live(others + Members(Survivors(input, |input|, snap, deeper)), s, e)
    requires x in input && x.user == e.user && x.seqno <= s
    ensures x.seqno <= e.seqno
  {
    var m :| 0 <= m < |input| && input[m] == x;
    var i := FirstVisible(input, m, s);
    var top := input[i];
    SurvivorIff(input, |input|, snap, deeper, top);
    SurvivorIff(input, |input|, snap, deeper, e);
    if top !in Survivors(input, |input|, snap, deeper) {
      assert ObsoleteMarker(top, snap, deeper);
      if e !in others {
        var n :| 0 <= n < |input| && input[n] == e && !Dropped(input, n, snap, deeper);
        if i < n {
          NewerHides(input, i, n, snap);
          assert false;
        }
        assert n == i || EntryBefore(input[n], input[i]);
      }
    }
  }

  /** With every input entry at or below the snapshot, one entry per key is left. */
  lemma {:induction false} SurvivorsSorted(input: seq<Entry>, n: nat, snap: nat, deeper: seq<Level>)
    requires StrictlySorted(input) && n <= |input|
    ensures StrictlySorted(Survivors(input, n, snap, deeper))
    ensures forall e :: e in Survivors(input, n, snap, deeper) ==> e in input[..n]
    ensures (forall e :: e in input ==> e.seqno <= snap) ==>
      forall i, j :: 0 <= i < j < |Survivors(input, n, snap, deeper)| ==>
        Survivors(input, n, snap, deeper)[i].user < Survivors(input, n, snap, deeper)[j].user
  {
    if n > 0 {
      SurvivorsSorted(input, n - 1, snap, deeper);
      var init := Survivors(input, n - 1, snap, deeper);
      assert input[..n] == input[..n - 1] + [input[n - 1]];
      if !Dropped(input, n - 1, snap, deeper) {
        forall e | e in init
          ensures EntryBefore(e, input[n - 1])
          ensures (forall x :: x in input ==> x.seqno <= snap) ==> e.user < input[n - 1].user
        {
          var j :| 0 <= j < n - 1 && input[j] == e;
          assert EntryBefore(input[j], input[n - 1]);
          if e.user == input[n - 1].user && e.seqno <= snap {
            NewerHides(input, j, n - 1, snap);
            assert false;
          }
        }
      }
    }
  }
}
