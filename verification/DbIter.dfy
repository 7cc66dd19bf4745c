/** The user's iterator (db/db_iter.cc): from all versions of all keys to one live
    value per key, forwards and backwards. */
module DbIter {
  import opened Wrappers
  import opened Keys
  import opened Files

  datatype Direction = Forward | Reverse

  predicate Seen(e: Entry, snapshot: nat)
  {
    e.seqno <= snapshot
  }

  /** Entry `i` is what a user sees for its key: the newest visible version, a value. */
  ghost predicate IsYield(entries: seq<Entry>, snapshot: nat, i: nat)
  {
    && i < |entries| && Seen(entries[i], snapshot) && entries[i].op.Put?
    && forall j :: 0 <= j < i && entries[j].user == entries[i].user ==> !Seen(entries[j], snapshot)
  }

  /** The visible map, as the places of its entries in key order. */
  ghost function Yields(entries: seq<Entry>, snapshot: nat, n: nat): (y: seq<nat>)
    requires n <= |entries|
    ensures forall i: nat :: i in y <==> i < n && IsYield(entries, snapshot, i)
    ensures forall v :: 0 <= v < |y| ==> y[v] < n && IsYield(entries, snapshot, y[v])
    ensures forall v, w :: 0 <= v < w < |y| ==> y[v] < y[w]
  {
    if n == 0 then []
    else if IsYield(entries, snapshot, n - 1) then Yields(entries, snapshot, n - 1) + [n - 1]
    else Yields(entries, snapshot, n - 1)
  }

  lemma UsersInOrder(entries: seq<Entry>, i: nat, j: nat)
    requires StrictlySorted(entries) && i <= j < |entries|
    ensures entries[i].user <= entries[j].user
  {
    assert i < j ==> EntryBefore(entries[i], entries[j]);
  }

  /** The user shown by the `v`-th yield. */
  ghost predicate Shows(entries: seq<Entry>, snapshot: nat, v: nat, e: Entry)
  {
    v < |Yields(entries, snapshot, |entries|)| && entries[Yields(entries, snapshot, |entries|)[v]] == e
  }

  /** What iteration shows is what reads return, key by key. */
  lemma YieldsAreReads(entries: seq<Entry>, snapshot: nat, e: Entry)
    requires StrictlySorted(entries)
    ensures (exists v :: Shows(entries, snapshot, v, e)) <==>
      (SeekUser(entries, e.user, snapshot) == Some(e) && e.op.Put?)
  {
    SeekUserFindsNewest(entries, e.user, snapshot);
    var y := Yields(entries, snapshot, |entries|);
    if v: nat :| Shows(entries, snapshot, v, e) {
      YieldIsRead(entries, snapshot, y[v]);
    }
    if SeekUser(entries, e.user, snapshot) == Some(e) && e.op.Put? {
      var i := ReadIsYield(entries, snapshot, e);
      var v :| 0 <= v < |y| && y[v] == i;
      assert Shows(entries, snapshot, v, e);
    }
  }

  lemma YieldIsRead(entries: seq<Entry>, snapshot: nat, i: nat)
    requires StrictlySorted(entries) && IsYield(entries, snapshot, i)
    ensures SeekUser(entries, entries[i].user, snapshot) == Some(entries[i])
  {
    forall j | 0 <= j < i
      ensures Before(KeyOf(entries[j]), LookupKey(entries[i].user, snapshot))
    {
      assert EntryBefore(entries[j], entries[i]);
    }
    FirstIsSplit(entries, LookupKey(entries[i].user, snapshot), i);
  }

  lemma ReadIsYield(entries: seq<Entry>, snapshot: nat, e: Entry) returns (i: nat)
    requires StrictlySorted(entries) && SeekUser(entries, e.user, snapshot) == Some(e) && e.op.Put?
    ensures IsYield(entries, snapshot, i) && entries[i] == e
  {
    SeekUserFindsNewest(entries, e.user, snapshot);
    i :| 0 <= i < |entries| && entries[i] == e;
    forall j | 0 <= j < i && entries[j].user == e.user
      ensures !Seen(entries[j], snapshot)
    {
      assert EntryBefore(entries[j], entries[i]);
      assert entries[j] in entries;
    }
  }

  /** No entry before `f` has the key of the entry at `f`. */
  ghost predicate GroupStart(entries: seq<Entry>, f: nat)
  {
    f <= |entries| && (f < |entries| ==> forall j :: 0 <= j < f ==> entries[j].user < entries[f].user)
  }

  /** The inner iterator stands before `f`, or past the front, and what lies between
      is too new to be seen. */
  ghost predicate JustBefore(entries: seq<Entry>, snapshot: nat, pos: Option<nat>, f: nat)
  {
    && f <= |entries| && (pos.Some? ==> pos.value < f)
    && forall j :: (if pos.Some? then pos.value < j else 0 <= j) && j < f ==> !Seen(entries[j], snapshot)
  }

  /** The entry right before the entries of the key at `y`, if any, is visible. */
  ghost predicate Clear(entries: seq<Entry>, snapshot: nat, y: nat)
  {
    forall f: nat :: GroupStart(entries, f) && f <= y < |entries| && entries[f].user == entries[y].user && f > 0 ==>
      Seen(entries[f - 1], snapshot)
  }

  /** Between the keys 1 and 3 lies an entry too new for snapshot 5: after a Prev
      onto key 3, Next stays there although key 4 is the next live key. */
  lemma NextCanStay(a: Value, b: Value)
    ensures var entries := [Entry(1.0, 1, Put(a)), Entry(2.0, 9, Put(a)), Entry(3.0, 2, Put(b)), Entry(4.0, 3, Put(b))];
      StrictlySorted(entries) && Yields(entries, 5, 4) == [0, 2, 3] && !Clear(entries, 5, 2)
  {
    var entries := [Entry(1.0, 1, Put(a)), Entry(2.0, 9, Put(a)), Entry(3.0, 2, Put(b)), Entry(4.0, 3, Put(b))];
    assert Yields(entries, 5, 0) == [];
    assert Yields(entries, 5, 1) == [0];
    assert Yields(entries, 5, 2) == [0];
    assert Yields(entries, 5, 3) == [0, 2];
    assert GroupStart(entries, 2);
  }

  /** DBIter.  The inner iterator is a cursor over a sorted list; an absent
      position means it is not valid. */
  class DBIter {
    const entries: seq<Entry>
    const snapshot: nat
    var pos: Option<nat>
    var savedKey: Option<Key>
    var savedValue: Value
    var direction: Direction
    var valid: bool

    constructor (entries: seq<Entry>, snapshot: nat)
      requires StrictlySorted(entries)
      ensures Shape() && !valid && this.entries == entries && this.snapshot == snapshot
    {
      this.entries, this.snapshot := entries, snapshot;
      pos, savedKey, savedValue, direction, valid := None, None, [], Forward, false;
    }

    ghost predicate Shape()
      reads this
    {
      StrictlySorted(entries) && (pos.Some? ==> pos.value < |entries|)
    }

    ghost function All(): seq<nat>
    {
      Yields(entries, snapshot, |entries|)
    }

    /** The iterator is on the `v`-th entry of the visible map; past its end: not valid. */
    ghost predicate StandsAt(v: nat)
      reads this
    {
      && Shape() && v <= |All()| && (valid <==> v < |All()|)
      && (valid && direction == Forward ==> pos == Some(All()[v]))
      && (valid && direction == Reverse ==> exists f :: StandsBehind(v, f))
    }

    /** Reverse: the inner iterator is already behind the key being shown. */
    ghost predicate StandsBehind(v: nat, f: nat)
      reads this
    {
      && v < |All()| && All()[v] < |entries| && var e := entries[All()[v]];
      && savedKey == Some(e.user) && e.op == Put(savedValue)
      && GroupStart(entries, f) && f <= All()[v] && entries[f].user == e.user
      && JustBefore(entries, snapshot, pos, f) && (pos.Some? ==> Seen(entries[pos.value], snapshot))
    }

    function Key(): Key
      requires valid && (direction == Forward ==> pos.Some? && pos.value < |entries|)
      requires direction == Reverse ==> savedKey.Some?
      reads this
    {
      if direction == Forward then entries[pos.value].user else savedKey.value
    }

    function Value(): Keys.Value
      requires valid && (direction == Forward ==> pos.Some? && pos.value < |entries| && entries[pos.value].op.Put?)
      reads this
    {
      if direction == Forward then entries[pos.value].op.value else savedValue
    }

    /** What key() and value() return is the `v`-th entry of the visible map. */
    lemma Current(v: nat)
      requires StandsAt(v) && valid
      ensures v < |All()| && All()[v] < |entries| && entries[All()[v]].op.Put?
      ensures direction == Forward ==> pos == Some(All()[v])
      ensures direction == Reverse ==> savedKey.Some?
      ensures Key() == entries[All()[v]].user && Value() == entries[All()[v]].op.value
    {
      assert IsYield(entries, snapshot, All()[v]);
    }

    /** The first entry from `p` on that is a yield and not to be skipped is the `v`-th yield. */
    ghost predicate NextFrom(p: nat, skipping: bool, skip: Option<Key>, v: nat)
    {
      && p < |entries| && v <= |All()| && (skipping ==> skip.Some? && skip.value <= entries[p].user)
      && (forall w :: 0 <= w < v ==> All()[w] < p || (skipping && entries[All()[w]].user <= skip.value))
      && (v < |All()| ==> All()[v] >= p && (skipping ==> entries[All()[v]].user > skip.value))
      && (forall j :: 0 <= j < p && Seen(entries[j], snapshot) && entries[j].user == entries[p].user ==>
        skipping && skip.value >= entries[p].user)
    }

    method FindNextUserEntry(skipping0: bool, skip0: Option<Key>, ghost v: nat)
      requires Shape() && direction == Forward && pos.Some? && NextFrom(pos.value, skipping0, skip0, v)
      modifies this`pos, this`savedKey, this`valid
      ensures StandsAt(v) && direction == Forward
    {
      var skipping, skip := skipping0, skip0;
      while true
        invariant Shape() && pos.Some? && NextFrom(pos.value, skipping, skip, v)
        decreases |entries| - pos.value
      {
        var e := entries[pos.value];
        if e.seqno <= snapshot {
          match e.op
          case Delete =>
            DeletionHides(pos.value, skipping, skip, v);
            skip, skipping := Some(e.user), true;
          case Put(_) =>
            if !(skipping && e.user <= skip.value) {
              FoundNext(pos.value, skipping, skip, v);
              valid, savedKey := true, None;
              return;
            }
        }
        StepForward(pos.value, skipping, skip, v);
        pos := if pos.value + 1 < |entries| then Some(pos.value + 1) else None;
        if pos.None? {
          break;
        }
      }
      savedKey, valid := None, false;
    }

    lemma YieldAt(v: nat)
      requires v < |All()|
      ensures IsYield(entries, snapshot, All()[v])
    {
      assert All()[v] in All();
    }

    lemma DeletionHides(p: nat, skipping: bool, skip: Option<Key>, v: nat)
      requires StrictlySorted(entries) && NextFrom(p, skipping, skip, v)
      requires Seen(entries[p], snapshot) && entries[p].op.Delete?
      ensures NextFrom(p, true, Some(entries[p].user), v)
    {
      if v < |All()| {
        YieldAt(v);
        UsersInOrder(entries, p, All()[v]);
      }
      forall w | 0 <= w < v
        ensures All()[w] < p || entries[All()[w]].user <= entries[p].user
      {
        YieldAt(w);
      }
    }

    /** An entry that is not shown is passed over. */
    lemma StepForward(p: nat, skipping: bool, skip: Option<Key>, v: nat)
      requires StrictlySorted(entries) && NextFrom(p, skipping, skip, v)
      requires Seen(entries[p], snapshot) ==> skipping && entries[p].user <= skip.value
      ensures if p + 1 < |entries| then NextFrom(p + 1, skipping, skip, v) else v == |All()|
    {
      if v < |All()| {
        YieldAt(v);
      }
      if p + 1 < |entries| {
        UsersInOrder(entries, p, p + 1);
        forall j | 0 <= j < p + 1 && Seen(entries[j], snapshot) && entries[j].user == entries[p + 1].user
          ensures skipping && skip.value >= entries[p + 1].user
        {
          UsersInOrder(entries, j, p);
        }
      }
    }

    lemma FoundNext(p: nat, skipping: bool, skip: Option<Key>, v: nat)
      requires StrictlySorted(entries) && NextFrom(p, skipping, skip, v)
      requires Seen(entries[p], snapshot) && entries[p].op.Put? && !(skipping && entries[p].user <= skip.value)
      ensures v < |All()| && All()[v] == p
    {
      assert IsYield(entries, snapshot, p);
      assert p in All();
      var w :| 0 <= w < |All()| && All()[w] == p;
      assert v <= w;
    }

    method SeekToFirst()
      requires Shape()
      modifies this
      ensures StandsAt(0) && direction == Forward
    {
      direction, savedValue := Forward, [];
      pos := if entries == [] then None else Some(0);
      if pos.Some? {
        FindNextUserEntry(false, None, 0);
      } else {
        valid := false;
      }
    }

    /** Seek to the first live key at or after the target. */
    method Seek(target: Key) returns (ghost v: nat)
      requires Shape()
      modifies this
      ensures StandsAt(v) && FirstYield(target, v)
    {
      direction, savedValue := Forward, [];
      var p := FirstAtOrAfter(entries, LookupKey(target, snapshot));
      pos := if p < |entries| then Some(p) else None;
      v := SeekIndex(target, |All()|);
      SeekStart(target, p, v);
      if pos.Some? {
        FindNextUserEntry(false, None, v);
      } else {
        valid := false;
      }
    }

    ghost predicate FirstYield(target: Key, v: nat)
    {
      && v <= |All()| && (forall w :: 0 <= w < v ==> YieldUser(w) < target)
      && (forall w :: v <= w < |All()| ==> YieldUser(w) >= target)
    }

    ghost function YieldUser(w: nat): Key
      requires w < |All()|
    {
      YieldAt(w);
      entries[All()[w]].user
    }

    lemma {:induction false} SeekIndex(target: Key, n: nat) returns (v: nat)
      requires StrictlySorted(entries) && n <= |All()|
      ensures v <= n && (forall w :: 0 <= w < v ==> YieldUser(w) < target)
      ensures forall w :: v <= w < n ==> YieldUser(w) >= target
    {
      v := 0;
      if n > 0 {
        v := SeekIndex(target, n - 1);
        if YieldUser(n - 1) < target {
          YieldsInOrder(n - 1);
          v := n;
        }
      }
    }

    lemma YieldsInOrder(n: nat)
      requires StrictlySorted(entries) && n < |All()|
      ensures forall w :: 0 <= w < n ==> YieldUser(w) < YieldUser(n)
    {
      forall w | 0 <= w < n
        ensures YieldUser(w) < YieldUser(n)
      {
        YieldAt(w);
        YieldAt(n);
        UsersInOrder(entries, All()[w], All()[n]);
      }
    }

    lemma SeekStart(target: Key, p: nat, v: nat)
      requires StrictlySorted(entries) && p == FirstAtOrAfter(entries, LookupKey(target, snapshot))
      requires FirstYield(target, v)
      ensures if p < |entries| then NextFrom(p, false, None, v) else v == |All()|
    {
      forall w | 0 <= w < |All()|
        ensures All()[w] < p <==> YieldUser(w) < target
      {
        YieldAt(w);
        if All()[w] > p {
          UsersInOrder(entries, p, All()[w]);
        }
      }
      if v < |All()| {
        YieldAt(v);
      }
    }

    /** Move to the next live key.  Coming from reverse, the scan starts right after
        the inner iterator: it moves on exactly if that is where the current key
        begins, that is, if no entries too new to be seen lie directly before it. */
    method Next(ghost v: nat)
      requires StandsAt(v) && valid
      modifies this
      ensures v < |All()|
      ensures StandsAt(if old(direction) == Forward || Clear(entries, snapshot, All()[v]) then v + 1 else v)
      ensures valid ==> direction == Forward
    {
      if direction == Reverse {
        ghost var f :| StandsBehind(v, f);
        direction := Forward;
        SwitchStart(v, f);
        // The source also asks whether the inner iterator has run off the end; it never has.
        pos := Some(if pos.None? then 0 else pos.value + 1);
        savedKey := Some(entries[pos.value].user);
        FindNextUserEntry(true, savedKey, if Clear(entries, snapshot, All()[v]) then v + 1 else v);
      } else {
        savedKey := Some(entries[pos.value].user);
        NextStart(v);
        FindNextUserEntry(true, savedKey, v + 1);
      }
    }

    lemma NextStart(v: nat)
      requires StandsAt(v) && valid && direction == Forward
      ensures NextFrom(pos.value, true, Some(entries[pos.value].user), v + 1)
    {
      YieldAt(v);
      YieldsInOrder(v);
      if v + 1 < |All()| {
        YieldsInOrder(v + 1);
        assert YieldUser(v) < YieldUser(v + 1);
      }
      forall w | 0 <= w < v + 1
        ensures entries[All()[w]].user <= entries[pos.value].user
      {
        assert YieldUser(w) <= YieldUser(v);
      }
    }

    lemma SwitchStart(v: nat, f: nat)
      requires StrictlySorted(entries) && StandsBehind(v, f)
      ensures var q := if pos.Some? then pos.value + 1 else 0;
        && q < |entries| && (Clear(entries, snapshot, All()[v]) <==> q == f)
        && NextFrom(q, true, Some(entries[q].user), if Clear(entries, snapshot, All()[v]) then v + 1 else v)
    {
      var q := if pos.Some? then pos.value + 1 else 0;
      YieldAt(v);
      StartUnique(v, f);
      YieldsInOrder(v);
      if q == f {
        if v + 1 < |All()| {
          YieldsInOrder(v + 1);
          assert YieldUser(v) < YieldUser(v + 1);
        }
        forall w | 0 <= w < v + 1
          ensures entries[All()[w]].user <= entries[q].user
        {
          assert YieldUser(w) <= YieldUser(v);
        }
      } else {
        UsersInOrder(entries, q, All()[v]);
        forall w | 0 <= w < v
          ensures All()[w] < q
        {
          YieldAt(w);
          assert YieldUser(w) < YieldUser(v);
          if All()[w] >= f {
            UsersInOrder(entries, f, All()[w]);
          }
        }
      }
    }

    lemma StartUnique(v: nat, f: nat)
      requires StrictlySorted(entries) && StandsBehind(v, f)
      ensures Clear(entries, snapshot, All()[v]) <==> f == (if pos.Some? then pos.value + 1 else 0)
    {
      forall g: nat | GroupStart(entries, g) && g <= All()[v] && entries[g].user == entries[All()[v]].user
        ensures g == f
      {
      }
      assert GroupStart(entries, f) && (f > 0 ==> (Seen(entries[f - 1], snapshot) <==> pos == Some(f - 1)));
    }

    method SeekToLast()
      requires Shape()
      modifies this
      ensures StandsAt(if |All()| == 0 then 0 else |All()| - 1)
    {
      direction, savedValue := Reverse, [];
      pos := if entries == [] then None else Some(|entries| - 1);
      FindPrevUserEntry(|entries|, |All()|);
    }

    /** Move to the previous live key; from the first one, nowhere. */
    method Prev(ghost v: nat)
      requires StandsAt(v) && valid
      modifies this
      ensures StandsAt(if v == 0 then |All()| else v - 1) && (valid ==> direction == Reverse)
    {
      if direction == Forward {
        savedKey := Some(entries[pos.value].user);
        ghost var start := pos.value;
        pos := if pos.value > 0 then Some(pos.value - 1) else None;
        while pos.Some? && !(entries[pos.value].user < savedKey.value)
          invariant savedKey == Some(entries[start].user) && (pos.Some? ==> pos.value < start)
          invariant forall j :: (if pos.Some? then pos.value < j else 0 <= j) && j <= start ==>
            entries[j].user >= savedKey.value
          decreases if pos.Some? then pos.value + 1 else 0
        {
          pos := if pos.value > 0 then Some(pos.value - 1) else None;
        }
        PrevStart(v, start, pos);
        if pos.None? {
          valid, savedKey, savedValue := false, None, [];
          return;
        }
        direction := Reverse;
        FindPrevUserEntry(pos.value + 1, v);
      } else {
        ghost var f :| StandsBehind(v, f);
        BehindBounds(v, f);
        FindPrevUserEntry(f, v);
      }
    }

    /** Exactly the first `v` yields lie before `f`. */
    ghost predicate YieldsBefore(f: nat, v: nat)
    {
      && v <= |All()| && (forall w :: 0 <= w < v ==> All()[w] < f) && (forall w :: v <= w < |All()| ==> All()[w] >= f)
    }

    /** What the scan knows: `m` is the last visible entry it passed, if any; no
        yield lies behind it, except versions of its key that it hides if it is a
        value and is still pending. */
    ghost predicate Scanned(pending: bool, m: nat, f: nat)
      reads this
    {
      && m <= f <= |entries| && (pos.Some? ==> pos.value < m)
      && (forall j :: (if pos.Some? then pos.value < j else 0 <= j) && j < m ==> !Seen(entries[j], snapshot))
      && (m < f ==> Seen(entries[m], snapshot) && (pending <==> entries[m].op.Put?))
      && (pending ==> m < f && savedKey == Some(entries[m].user) && entries[m].op == Put(savedValue))
      && (!pending ==> forall y: nat :: m <= y < f ==> !IsYield(entries, snapshot, y))
      && (pending ==> forall y: nat :: m < y < f ==> !IsYield(entries, snapshot, y))
    }

    method FindPrevUserEntry(ghost f: nat, ghost v: nat)
      requires Shape() && direction == Reverse && GroupStart(entries, f) && JustBefore(entries, snapshot, pos, f)
      requires YieldsBefore(f, v)
      modifies this
      ensures StandsAt(if v == 0 then |All()| else v - 1) && (valid ==> direction == Reverse)
    {
      var pending := false;
      ghost var m := f;
      hide IsYield;
      hide Yields;
      hide GroupStart;
      hide StrictlySorted;
      while pos.Some?
        invariant Shape() && direction == Reverse && Scanned(pending, m, f)
        decreases if pos.Some? then pos.value + 1 else 0
      {
        var e := entries[pos.value];
        if e.seqno <= snapshot {
          if pending && e.user < savedKey.value {
            break;
          }
          PassVisible(pending, m, f);
          m := pos.value;
          pending := e.op.Put?;
          match e.op
          case Delete =>
            savedKey, savedValue := None, [];
          case Put(value) =>
            savedKey, savedValue := Some(e.user), value;
        }
        pos := if pos.value > 0 then Some(pos.value - 1) else None;
      }
      EndScan(pending, m, f, v);
      if !pending {
        valid, savedKey, savedValue, direction := false, None, [], Forward;
      } else {
        valid := true;
        LastIsShown(m, f, v - 1);
      }
    }

    /** Past every version of the current key: the scan starts with a clean slate. */
    lemma PrevStart(v: nat, start: nat, p: Option<nat>)
      requires StrictlySorted(entries) && v < |All()| && start == All()[v]
      requires p.Some? ==> p.value < start && entries[p.value].user < entries[start].user
      requires forall j :: (if p.Some? then p.value < j else 0 <= j) && j <= start ==>
        entries[j].user >= entries[start].user
      ensures p.None? ==> v == 0
      ensures p.Some? ==> GroupStart(entries, p.value + 1) && YieldsBefore(p.value + 1, v)
    {
      assert YieldUser(v) == entries[start].user;
      if p.None? {
        NothingSmaller(v);
      } else {
        YieldsInOrder(v);
        UsersInOrder(entries, p.value + 1, start);
        forall j | 0 <= j < p.value + 1
          ensures entries[j].user < entries[p.value + 1].user
        {
          UsersInOrder(entries, j, p.value);
        }
        forall w | 0 <= w < v
          ensures All()[w] < p.value + 1
        {
          assert YieldUser(w) < YieldUser(v);
        }
      }
    }

    lemma NothingSmaller(v: nat)
      requires StrictlySorted(entries) && v < |All()|
      requires forall j :: 0 <= j <= All()[v] ==> entries[j].user >= entries[All()[v]].user
      ensures v == 0
    {
      var first := All()[0];
      if v > 0 {
        YieldsInOrder(v);
        assert false by {
          YieldAt(0);
        }
      }
    }

    lemma BehindBounds(v: nat, f: nat)
      requires StrictlySorted(entries) && StandsBehind(v, f)
      ensures YieldsBefore(f, v)
    {
      YieldsInOrder(v);
      forall w | 0 <= w < v
        ensures All()[w] < f
      {
        assert YieldUser(w) < YieldUser(v);
        if All()[w] >= f {
          UsersInOrder(entries, f, All()[w]);
        }
      }
    }

    /** A visible version hides the older ones of its key. */
    lemma PassVisible(pending: bool, m: nat, f: nat)
      requires StrictlySorted(entries) && Scanned(pending, m, f) && pos.Some? && Seen(entries[pos.value], snapshot)
      requires !(pending && entries[pos.value].user < savedKey.value)
      ensures forall y: nat :: pos.value < y < f ==> !IsYield(entries, snapshot, y)
      ensures entries[pos.value].op.Delete? ==> !IsYield(entries, snapshot, pos.value)
    {
      if m < f {
        UsersInOrder(entries, pos.value, m);
        assert pending ==> !IsYield(entries, snapshot, m);
      }
    }

    lemma EndScan(pending: bool, m: nat, f: nat, v: nat)
      requires StrictlySorted(entries) && Scanned(pending, m, f) && YieldsBefore(f, v)
      requires pos.Some? ==> pending && Seen(entries[pos.value], snapshot) && entries[pos.value].user < savedKey.value
      ensures pending ==> v > 0 && All()[v - 1] == m
      ensures !pending ==> v == 0
    {
      if pending {
        forall j | 0 <= j < m && entries[j].user == entries[m].user
          ensures !Seen(entries[j], snapshot)
        {
          if pos.Some? && j <= pos.value {
            UsersInOrder(entries, j, pos.value);
          }
        }
        assert IsYield(entries, snapshot, m);
        assert m in All();
        var w :| 0 <= w < |All()| && All()[w] == m;
        assert v > 0 && w < v;
        YieldAt(v - 1);
      } else if v > 0 {
        YieldAt(v - 1);
      }
    }

    lemma LastIsShown(m: nat, f: nat, u: nat)
      requires StrictlySorted(entries) && Scanned(true, m, f) && u < |All()| && All()[u] == m
      requires pos.Some? ==> Seen(entries[pos.value], snapshot) && entries[pos.value].user < savedKey.value
      ensures exists g :: StandsBehind(u, g)
    {
      var g := GroupOf(m);
      if pos.Some? && pos.value >= g {
        UsersInOrder(entries, g, pos.value);
      }
      assert StandsBehind(u, g);
    }

    lemma {:induction false} GroupOf(m: nat) returns (g: nat)
      requires StrictlySorted(entries) && m < |entries|
      ensures g <= m && GroupStart(entries, g) && entries[g].user == entries[m].user
    {
      if m > 0 && entries[m - 1].user == entries[m].user {
        g := GroupOf(m - 1);
      } else {
        g := m;
        forall j | 0 <= j < m
          ensures entries[j].user < entries[m].user
        {
          UsersInOrder(entries, j, m - 1);
          UsersInOrder(entries, m - 1, m);
        }
      }
    }
  }

  /** On that stream, from the last key: Prev goes to key 3, and Next stays there. */
  method NextAfterPrev(a: Value, b: Value) returns (before: Key, after: Key)
    ensures before == after == 3.0
  {
    NextCanStay(a, b);
    hide Yields;
    hide Clear;
    var entries := [Entry(1.0, 1, Put(a)), Entry(2.0, 9, Put(a)), Entry(3.0, 2, Put(b)), Entry(4.0, 3, Put(b))];
    var it := new DBIter(entries, 5);
    it.SeekToLast();
    it.Prev(2);
    it.Current(1);
    before := it.Key();
    it.Next(1);
    it.Current(1);
    after := it.Key();
  }
}
