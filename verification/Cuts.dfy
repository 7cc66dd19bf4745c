/** Where a compaction cuts its output into files (db/db_impl.cc, DoCompactionWork;
    db/version_set.cc, ShouldStopBefore). */
module Cuts {
  import opened Keys
  import opened Files
  import Overlap

  /** What the cuts depend on: the grandparent files and how many of their bytes an
      output may overlap, and the size of a table and how large an output may get. */
  datatype Rules = Rules(grandparents: Level, maxOverlapBytes: nat, fileSize: seq<Entry> -> nat,
                         maxOutputFileSize: nat)

  /** How many of the files, from the first on, end before `key`. */
  function PassedBy(files: Level, key: IKey): (n: nat)
    ensures n <= |files| && (n < |files| ==> !Before(files[n].largest, key))
    ensures forall j :: 0 <= j < n ==> Before(files[j].largest, key)
  {
    if files == [] || !Before(files[0].largest, key) then 0 else 1 + PassedBy(files[1..], key)
  }

  lemma PassedIs(files: Level, key: IKey, n: nat)
    requires n <= |files| && (n < |files| ==> !Before(files[n].largest, key))
    requires forall j :: 0 <= j < n ==> Before(files[j].largest, key)
    ensures n == PassedBy(files, key)
  {
    var p := PassedBy(files, key);
    assert forall j :: 0 <= j < p ==> Before(files[j].largest, key);
  }

  lemma PassesMore(files: Level, a: IKey, b: IKey)
    requires Before(a, b)
    ensures PassedBy(files, a) <= PassedBy(files, b)
  {
    var p := PassedBy(files, b);
    assert p < PassedBy(files, a) ==> Before(files[p].largest, a);
  }

  /** The files that end between two keys. */
  function PassedFrom(files: Level, a: IKey, b: IKey): Level
    requires Before(a, b)
  {
    PassesMore(files, a, b);
    files[PassedBy(files, a)..PassedBy(files, b)]
  }

  /** The bytes of the grandparents passed since the last stop, when entry `i` is looked at. */
  ghost function Overlapped(r: Rules, input: seq<Entry>, i: nat): nat
    requires i < |input| && StrictlySorted(input)
    decreases i, 0
  {
    if i == 0 then 0
    else
      Counted(r, input, i - 1)
      + Overlap.TotalFileSize(PassedFrom(r.grandparents, KeyOf(input[i - 1]), KeyOf(input[i])))
  }

  /** What is still counted after entry `i`. */
  ghost function Counted(r: Rules, input: seq<Entry>, i: nat): nat
    requires i < |input| && StrictlySorted(input)
    decreases i, 2
  {
    if StopsBefore(r, input, i) then 0 else Overlapped(r, input, i)
  }

  /** An output must not go on with entry `i`: too many grandparent bytes have been passed. */
  ghost predicate StopsBefore(r: Rules, input: seq<Entry>, i: nat)
    requires i < |input| && StrictlySorted(input)
    decreases i, 1
  {
    Overlapped(r, input, i) > r.maxOverlapBytes
  }

  /** There is a stop after `a`, among the first `n` entries. */
  ghost predicate StopAfter(r: Rules, input: seq<Entry>, n: nat, a: Entry)
    requires n <= |input| && StrictlySorted(input)
  {
    exists i :: 0 <= i < n && StopsBefore(r, input, i) && EntryBefore(a, input[i])
  }

  /** There is a stop after `a` and not after `b`. */
  ghost predicate StopBetween(r: Rules, input: seq<Entry>, a: Entry, b: Entry)
    requires StrictlySorted(input)
  {
    exists i :: 0 <= i < |input| && StopsBefore(r, input, i) && EntryBefore(a, input[i]) && !EntryBefore(b, input[i])
  }

  function Last(part: seq<Entry>): Entry
    requires part != []
  {
    part[|part| - 1]
  }

  /** Nothing within the part called for a cut. */
  ghost predicate Whole(r: Rules, input: seq<Entry>, part: seq<Entry>)
    requires StrictlySorted(input)
  {
    forall n :: 0 < n < |part| ==>
      r.fileSize(part[..n]) < r.maxOutputFileSize && !StopBetween(r, input, part[n - 1], part[n])
  }

  /** There is a reason for a cut between two parts. */
  ghost predicate CutBetween(r: Rules, input: seq<Entry>, part: seq<Entry>, next: seq<Entry>)
    requires StrictlySorted(input) && part != [] && next != []
  {
    r.fileSize(part) >= r.maxOutputFileSize || StopBetween(r, input, Last(part), next[0])
  }

  ghost predicate NoneEmpty(parts: seq<seq<Entry>>)
  {
    forall i :: 0 <= i < |parts| ==> parts[i] != []
  }

  /** The output is cut where, and only where, a file got large enough or a stop came. */
  ghost predicate WellCut(r: Rules, input: seq<Entry>, parts: seq<seq<Entry>>)
    requires StrictlySorted(input)
  {
    && NoneEmpty(parts)
    && (forall j :: 0 <= j < |parts| ==> Whole(r, input, parts[j]))
    && (forall j :: 0 <= j < |parts| - 1 ==> CutBetween(r, input, parts[j], parts[j + 1]))
  }

  // ----- there is one way to cut -----

  lemma WellCutTail(r: Rules, input: seq<Entry>, parts: seq<seq<Entry>>)
    requires StrictlySorted(input) && parts != [] && WellCut(r, input, parts)
    ensures WellCut(r, input, parts[1..])
  {
    hide Whole;
    hide StrictlySorted;
    hide StopBetween;
    var rest := parts[1..];
    forall j | 0 <= j < |rest| - 1
      ensures CutBetween(r, input, rest[j], rest[j + 1])
    {
      assert CutBetween(r, input, parts[j + 1], parts[j + 1 + 1]);
    }
  }

  /** A part does not end where another goes on. */
  lemma NotShorter(r: Rules, input: seq<Entry>, a: seq<seq<Entry>>, b: seq<seq<Entry>>)
    requires StrictlySorted(input) && WellCut(r, input, a) && WellCut(r, input, b)
    requires a != [] && b != [] && Flatten(a) == Flatten(b)
    ensures |a[0]| >= |b[0]|
  {
    hide StrictlySorted;
    hide StopBetween;
    FlattenFront(a);
    FlattenFront(b);
    var n := |a[0]|;
    assert n <= |b[0]| ==> b[0][..n] == Flatten(b)[..n] == a[0];
    if |a| > 1 {
      FlattenFront(a[1..]);
      assert CutBetween(r, input, a[0], a[0 + 1]);
      assert Flatten(a)[n] == a[1][0];
    }
  }

  lemma {:induction false} CutOnce(r: Rules, input: seq<Entry>, a: seq<seq<Entry>>, b: seq<seq<Entry>>)
    requires StrictlySorted(input) && WellCut(r, input, a) && WellCut(r, input, b) && Flatten(a) == Flatten(b)
    ensures a == b
  {
    hide StrictlySorted;
    hide Whole;
    hide CutBetween;
    if a == [] || b == [] {
      if a != [] { FlattenFront(a); }
      if b != [] { FlattenFront(b); }
    } else {
      NotShorter(r, input, a, b);
      NotShorter(r, input, b, a);
      FlattenFront(a);
      FlattenFront(b);
      assert a[0] == Flatten(a)[..|a[0]|] == b[0];
      assert Flatten(a[1..]) == Flatten(a)[|a[0]|..] == Flatten(b[1..]);
      WellCutTail(r, input, a);
      WellCutTail(r, input, b);
      CutOnce(r, input, a[1..], b[1..]);
      assert a == [a[0]] + a[1..] && b == [b[0]] + b[1..];
    }
  }

  // ----- cutting as the entries come -----

  /** The part being written, if any, after the finished ones. */
  function AllParts(outputs: seq<seq<Entry>>, builder: seq<Entry>): seq<seq<Entry>>
  {
    if builder == [] then outputs else outputs + [builder]
  }

  /** The last part is finished by the time entry `n` is looked at. */
  ghost predicate Closed(r: Rules, input: seq<Entry>, n: nat, part: seq<Entry>)
    requires n <= |input| && StrictlySorted(input) && part != []
  {
    r.fileSize(part) >= r.maxOutputFileSize || StopAfter(r, input, n, Last(part))
  }

  /** What holds of the outputs and the part being written before entry `n`. */
  ghost predicate CutSoFar(r: Rules, input: seq<Entry>, n: nat, outputs: seq<seq<Entry>>, builder: seq<Entry>)
    requires n <= |input| && StrictlySorted(input)
  {
    var parts := AllParts(outputs, builder);
    && WellCut(r, input, parts)
    && (forall e :: e in Flatten(parts) ==> e in input[..n])
    && (parts != [] ==> (builder == [] <==> Closed(r, input, n, parts[|parts| - 1])))
  }

  lemma NothingCut(r: Rules, input: seq<Entry>)
    requires StrictlySorted(input)
    ensures CutSoFar(r, input, 0, [], [])
  {
  }

  lemma LastIsIn(parts: seq<seq<Entry>>)
    requires parts != [] && NoneEmpty(parts)
    ensures Last(parts[|parts| - 1]) in Flatten(parts)
  {
  }

  lemma BeforeNext(input: seq<Entry>, n: nat, e: Entry)
    requires StrictlySorted(input) && n < |input| && e in input[..n]
    ensures EntryBefore(e, input[n])
  {
    var i :| 0 <= i < n && input[i] == e;
  }

  /** Entry `n` is looked at: a stop there ends the part being written. */
  lemma LookAt(r: Rules, input: seq<Entry>, n: nat, outputs: seq<seq<Entry>>, builder: seq<Entry>)
    requires StrictlySorted(input) && n < |input| && CutSoFar(r, input, n, outputs, builder)
    ensures !StopsBefore(r, input, n) ==> CutSoFar(r, input, n + 1, outputs, builder)
    ensures StopsBefore(r, input, n) ==> CutSoFar(r, input, n + 1, AllParts(outputs, builder), [])
  {
    hide StrictlySorted;
    hide StopsBefore;
    hide WellCut;
    hide Flatten;
    var parts := AllParts(outputs, builder);
    assert AllParts(parts, []) == parts;
    forall e | e in Flatten(parts)
      ensures e in input[..n + 1]
    {
      assert input[..n + 1] == input[..n] + [input[n]];
    }
    if parts != [] {
      assert NoneEmpty(parts) by {
        NoneIsEmpty(r, input, parts);
      }
      LastIsIn(parts);
      BeforeNext(input, n, Last(parts[|parts| - 1]));
      StopAtNext(r, input, n, Last(parts[|parts| - 1]));
      hide StopAfter;
    }
  }

  lemma NoneIsEmpty(r: Rules, input: seq<Entry>, parts: seq<seq<Entry>>)
    requires StrictlySorted(input) && WellCut(r, input, parts)
    ensures NoneEmpty(parts)
  {
  }

  lemma StopAtNext(r: Rules, input: seq<Entry>, n: nat, e: Entry)
    requires StrictlySorted(input) && n < |input| && EntryBefore(e, input[n])
    ensures StopAfter(r, input, n + 1, e) <==> StopAfter(r, input, n, e) || StopsBefore(r, input, n)
  {
    hide StrictlySorted;
    hide StopsBefore;
  }

  /** Entry `n` is kept: it goes to the part being written, which ends if it is large enough then. */
  lemma Keep(r: Rules, input: seq<Entry>, n: nat, outputs: seq<seq<Entry>>, builder: seq<Entry>)
    requires StrictlySorted(input) && n < |input| && CutSoFar(r, input, n + 1, outputs, builder)
    requires forall e :: e in Flatten(AllParts(outputs, builder)) ==> e in input[..n]
    ensures var more := builder + [input[n]];
      if r.fileSize(more) >= r.maxOutputFileSize then CutSoFar(r, input, n + 1, outputs + [more], [])
      else CutSoFar(r, input, n + 1, outputs, more)
  {
    hide StrictlySorted;
    hide StopsBefore;
    hide StopAfter;
    hide StopBetween;
    hide WellCut;
    var more := builder + [input[n]];
    var parts := outputs + [more];
    assert AllParts(parts, []) == parts == AllParts(outputs, more);
    KeptWellCut(r, input, n, outputs, builder);
    NoStopYet(r, input, n);
    KeptMembers(input, n, outputs, builder);
  }

  lemma NoStopYet(r: Rules, input: seq<Entry>, n: nat)
    requires StrictlySorted(input) && n < |input|
    ensures !StopAfter(r, input, n + 1, input[n])
  {
    hide StopsBefore;
    forall i | 0 <= i < n + 1
      ensures !EntryBefore(input[n], input[i])
    {
      assert i < n ==> EntryBefore(input[i], input[n]);
    }
  }

  lemma KeptMembers(input: seq<Entry>, n: nat, outputs: seq<seq<Entry>>, builder: seq<Entry>)
    requires n < |input| && forall e :: e in Flatten(AllParts(outputs, builder)) ==> e in input[..n]
    ensures forall e :: e in Flatten(outputs + [builder + [input[n]]]) ==> e in input[..n + 1]
  {
    FlattenAppend(outputs, builder);
    FlattenAppend(outputs, builder + [input[n]]);
    hide Flatten;
    assert input[..n + 1] == input[..n] + [input[n]];
    assert Flatten(outputs) + builder == Flatten(AllParts(outputs, builder));
  }

  lemma KeptWellCut(r: Rules, input: seq<Entry>, n: nat, outputs: seq<seq<Entry>>, builder: seq<Entry>)
    requires StrictlySorted(input) && n < |input| && CutSoFar(r, input, n + 1, outputs, builder)
    requires forall e :: e in Flatten(AllParts(outputs, builder)) ==> e in input[..n]
    ensures WellCut(r, input, outputs + [builder + [input[n]]])
  {
    hide StrictlySorted;
    hide StopsBefore;
    hide StopAfter;
    hide StopBetween;
    hide Flatten;
    var more := builder + [input[n]];
    var before, parts := AllParts(outputs, builder), outputs + [more];
    NoneIsEmpty(r, input, before);
    forall j | 0 <= j < |outputs|
      ensures before[j] == outputs[j] && outputs[j] != []
    {
    }
    if before != [] {
      var last := before[|before| - 1];
      LastIsIn(before);
      StopsUpTo(r, input, n, Last(last));
      assert builder == [] ==> CutBetween(r, input, last, more);
    }
    assert Whole(r, input, more) by {
      forall m | 0 < m < |more|
        ensures r.fileSize(more[..m]) < r.maxOutputFileSize && !StopBetween(r, input, more[m - 1], more[m])
      {
        assert more[..m] == builder[..m] && builder[..|builder|] == builder;
        assert builder == before[|before| - 1] && Whole(r, input, builder);
      }
    }
    forall j | 0 <= j < |parts| - 1
      ensures CutBetween(r, input, parts[j], parts[j + 1])
    {
      if j < |outputs| - 1 {
        assert CutBetween(r, input, before[j], before[j + 1]);
      } else if builder != [] {
        assert CutBetween(r, input, before[j], before[j + 1]);
        assert parts[j + 1][0] == builder[0];
      }
    }
  }

  /** A stop after an earlier entry, up to entry `n`, lies between the two. */
  lemma StopsUpTo(r: Rules, input: seq<Entry>, n: nat, e: Entry)
    requires StrictlySorted(input) && n < |input|
    ensures StopAfter(r, input, n + 1, e) <==> StopBetween(r, input, e, input[n])
  {
    hide StopsBefore;
    forall i | 0 <= i < |input|
      ensures i < n + 1 <==> !EntryBefore(input[n], input[i])
    {
      assert i < n ==> EntryBefore(input[i], input[n]);
    }
  }
}
