/** Keys and entries (db/dbformat.h, db/dbformat.cc, util/comparator.cc).

    A user key is modelled by its rank: a real number that orders keys as the
    comparator does.  `RankOrders` shows that the bytewise comparator of the
    source is such an order, so nothing is lost: every comparison the store
    makes on two byte strings has the same outcome as `<` on their ranks. */
module Keys {

  type Byte = b: int | 0 <= b < 256

  type Key = real

  type Value = seq<Byte>

  /** memcmp on the common prefix, then the shorter string first. */
  function BytewiseCompare(a: seq<Byte>, b: seq<Byte>): int
  {
    if a == [] && b == [] then 0
    else if a == [] then -1
    else if b == [] then 1
    else if a[0] < b[0] then -1
    else if a[0] > b[0] then 1
    else BytewiseCompare(a[1..], b[1..])
  }

  function Rank(s: seq<Byte>): (r: real)
    ensures 0.0 <= r < 1.0
  {
    if s == [] then 0.0 else (s[0] as real + 1.0 + Rank(s[1..])) / 257.0
  }

  lemma {:induction false} RankOrders(a: seq<Byte>, b: seq<Byte>)
    ensures BytewiseCompare(a, b) < 0 <==> Rank(a) < Rank(b)
    ensures BytewiseCompare(a, b) == 0 <==> a == b
    ensures Rank(a) == Rank(b) <==> a == b
  {
    if a != [] && b != [] {
      RankOrders(a[1..], b[1..]);
      assert a == [a[0]] + a[1..] && b == [b[0]] + b[1..];
      var ra, rb := Rank(a[1..]), Rank(b[1..]);
      if a[0] < b[0] {
        assert a[0] as real + 1.0 <= b[0] as real;
      } else if b[0] < a[0] {
        assert b[0] as real + 1.0 <= a[0] as real;
      }
    }
  }

  const MAX_SEQUENCE: nat := 0xFF_FFFF_FFFF_FFFF

  datatype Op = Put(value: Value) | Delete

  /** One version of one user key. */
  datatype Entry = Entry(user: Key, seqno: nat, op: Op)

  /** An internal key: the user key and the packed (sequence, type) word. */
  datatype IKey = IKey(user: Key, tag: nat)

  const TYPE_DELETION := 0
  const TYPE_VALUE := 1
  const TYPE_FOR_SEEK := TYPE_VALUE

  function Pack(seqno: nat, t: nat): nat
  {
    seqno * 256 + t
  }

  function KeyOf(e: Entry): IKey
  {
    IKey(e.user, Pack(e.seqno, if e.op.Put? then TYPE_VALUE else TYPE_DELETION))
  }

  function LookupKey(k: Key, snapshot: nat): IKey
  {
    IKey(k, Pack(snapshot, TYPE_FOR_SEEK))
  }

  /** InternalKeyComparator::Compare(a, b) < 0: user key ascending, tag descending. */
  predicate Before(a: IKey, b: IKey)
  {
    a.user < b.user || (a.user == b.user && a.tag > b.tag)
  }

  predicate EntryBefore(a: Entry, b: Entry)
  {
    Before(KeyOf(a), KeyOf(b))
  }

  predicate StrictlySorted(s: seq<Entry>)
  {
    forall i, j :: 0 <= i < j < |s| ==> EntryBefore(s[i], s[j])
  }

  /** Seeking an entry list: the first entry not before the target, if any. */
  function FirstAtOrAfter(s: seq<Entry>, target: IKey): (i: nat)
    ensures i <= |s|
    ensures i < |s| ==> !Before(KeyOf(s[i]), target)
    ensures forall j :: 0 <= j < i ==> Before(KeyOf(s[j]), target)
  {
    if s == [] || !Before(KeyOf(s[0]), target) then 0
    else 1 + FirstAtOrAfter(s[1..], target)
  }

  lemma FirstIsSplit(s: seq<Entry>, target: IKey, p: nat)
    requires p <= |s| && (forall i :: 0 <= i < p ==> Before(KeyOf(s[i]), target))
    requires p < |s| ==> !Before(KeyOf(s[p]), target)
    ensures FirstAtOrAfter(s, target) == p
  {
    assert p < |s| ==> !Before(KeyOf(s[p]), target);
  }

  lemma SamePrefix(a: seq<Byte>, b: seq<Byte>, n: nat)
    requires n <= |a| && n <= |b| && a[..n] == b[..n]
    ensures forall i :: 0 <= i < n ==> a[i] == b[i]
  {
    forall i | 0 <= i < n
      ensures a[i] == b[i]
    {
      assert a[..n][i] == b[..n][i];
    }
  }

  function Flatten<T>(parts: seq<seq<T>>): seq<T>
  {
    if parts == [] then [] else Flatten(parts[..|parts| - 1]) + parts[|parts| - 1]
  }

  lemma FlattenAppend<T>(parts: seq<seq<T>>, last: seq<T>)
    ensures Flatten(parts + [last]) == Flatten(parts) + last
  {
    assert (parts + [last])[..|parts|] == parts;
  }

  lemma {:induction false} FlattenFront<T>(parts: seq<seq<T>>)
    requires parts != []
    ensures Flatten(parts) == parts[0] + Flatten(parts[1..])
  {
    if |parts| == 1 {
      assert parts[..0] == [] && parts[1..] == [] && Flatten<T>([]) == [];
    } else {
      var init := parts[..|parts| - 1];
      FlattenFront(init);
      assert init[1..] == parts[1..][..|parts| - 2];
      assert parts[0] + (Flatten(init[1..]) + parts[|parts| - 1]) == parts[0] + Flatten(parts[1..]);
    }
  }

  /** Where part i starts in the concatenation. */
  function Offset<T>(parts: seq<seq<T>>, i: nat): nat
    requires i <= |parts|
  {
    |Flatten(parts[..i])|
  }

  lemma {:induction false} FlattenAt<T>(parts: seq<seq<T>>, i: nat, a: nat)
    requires i < |parts| && a < |parts[i]|
    ensures Offset(parts, i) + a < |Flatten(parts)| && Flatten(parts)[Offset(parts, i) + a] == parts[i][a]
  {
    if i == |parts| - 1 {
    } else {
      var init := parts[..|parts| - 1];
      FlattenAt(init, i, a);
      assert init[..i] == parts[..i];
    }
  }

  lemma {:induction false} OffsetGrows<T>(parts: seq<seq<T>>, i: nat, j: nat)
    requires i < j <= |parts|
    ensures Offset(parts, i) + |parts[i]| <= Offset(parts, j)
  {
    assert parts[..j][..j - 1] == parts[..j - 1];
    if i < j - 1 {
      OffsetGrows(parts, i, j - 1);
    }
  }

  lemma {:induction false} FlattenMember<T>(parts: seq<seq<T>>, x: T)
    ensures x in Flatten(parts) <==> exists i :: 0 <= i < |parts| && x in parts[i]
  {
    if parts != [] {
      FlattenMember(parts[..|parts| - 1], x);
    }
  }
}
