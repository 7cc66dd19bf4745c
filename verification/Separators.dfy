/** Short keys between keys (util/comparator.cc, db/dbformat.cc): the index of a
    table need not hold whole keys, only something in between. */
module Separators {
  import opened Wrappers
  import opened Keys
  import opened Coding

  // ----- plain byte strings -----

  lemma {:induction false} RankAfterPrefix(p: seq<Byte>, a: seq<Byte>, b: seq<Byte>)
    ensures Rank(p + a) < Rank(p + b) <==> Rank(a) < Rank(b)
  {
    if p == [] {
      assert p + a == a && p + b == b;
    } else {
      RankAfterPrefix(p[1..], a, b);
      assert (p + a)[0] == p[0] == (p + b)[0];
      assert (p + a)[1..] == p[1..] + a && (p + b)[1..] == p[1..] + b;
    }
  }

  lemma FirstByteDecides(a: seq<Byte>, b: seq<Byte>)
    requires a != [] && b != [] && a[0] < b[0]
    ensures Rank(a) < Rank(b)
  {
    RankOrders(a, b);
  }

  /** At the first difference, at `d`, the byte of `start` goes up by one and the rest
      goes away, provided that this stays before `limit`; else nothing changes. */
  ghost predicate Shortened(start: seq<Byte>, limit: seq<Byte>, d: nat, r: seq<Byte>)
  {
    && d <= |start| && d <= |limit| && start[..d] == limit[..d]
    && (d < |start| && d < |limit| ==> start[d] != limit[d])
    && (d < |start| && d < |limit| && start[d] < 0xff && start[d] as int + 1 < limit[d] as int ==>
      r == start[..d] + [start[d] + 1])
    && (!(d < |start| && d < |limit| && start[d] < 0xff && start[d] as int + 1 < limit[d] as int) ==> r == start)
  }

  /** Some string at or after `start` and before `limit`, shorter if that is easy. */
  method FindShortestSeparator(start: seq<Byte>, limit: seq<Byte>) returns (r: seq<Byte>)
    ensures Rank(start) <= Rank(r) && (r == start || (Rank(start) < Rank(r) && |r| <= |start|))
    ensures Rank(start) < Rank(limit) ==> Rank(r) < Rank(limit)
    ensures exists d :: Shortened(start, limit, d, r)
  {
    var minLength := if |start| < |limit| then |start| else |limit|;
    var d := 0;
    while d < minLength && start[d] == limit[d]
      invariant 0 <= d <= minLength && start[..d] == limit[..d]
    {
      d := d + 1;
    }
    r := start;
    if d < minLength && start[d] < 0xff && start[d] as int + 1 < limit[d] as int {
      r := start[..d] + [start[d] + 1];
      SeparatorBetween(start[..d], start[d..], [start[d] + 1], limit[d..]);
      assert start == start[..d] + start[d..] && limit == start[..d] + limit[d..];
    }
    assert Shortened(start, limit, d, r);
  }

  lemma SeparatorBetween(p: seq<Byte>, a: seq<Byte>, s: seq<Byte>, b: seq<Byte>)
    requires a != [] && s != [] && b != [] && a[0] < s[0] < b[0]
    ensures Rank(p + a) < Rank(p + s) < Rank(p + b)
  {
    FirstByteDecides(a, s);
    FirstByteDecides(s, b);
    RankAfterPrefix(p, a, s);
    RankAfterPrefix(p, s, b);
  }

  /** The first byte that is not 0xff goes up by one and the rest goes away. */
  ghost predicate Raised(key: seq<Byte>, r: seq<Byte>)
  {
    && 0 < |r| <= |key| && r[..|r| - 1] == key[..|r| - 1] && r[|r| - 1] as int == key[|r| - 1] as int + 1
    && forall j :: 0 <= j < |r| - 1 ==> key[j] == 0xff
  }

  /** Raised, or the key itself if it is 0xff all through. */
  ghost predicate Succeeds(key: seq<Byte>, r: seq<Byte>)
  {
    if forall j :: 0 <= j < |key| ==> key[j] == 0xff then r == key else Raised(key, r)
  }

  /** Some string at or after the key. */
  method FindShortSuccessor(key: seq<Byte>) returns (r: seq<Byte>)
    ensures Rank(key) <= Rank(r) && (r == key || (Rank(key) < Rank(r) && |r| <= |key|))
    ensures Succeeds(key, r)
  {
    var i := 0;
    while i < |key|
      invariant 0 <= i <= |key| && forall j :: 0 <= j < i ==> key[j] == 0xff
    {
      if key[i] != 0xff {
        r := key[..i] + [key[i] + 1];
        FirstByteDecides(key[i..], [key[i] + 1]);
        RankAfterPrefix(key[..i], key[i..], [key[i] + 1]);
        assert key == key[..i] + key[i..];
        return;
      }
      i := i + 1;
    }
    r := key;
  }

  // ----- internal keys -----

  /** An internal key in a table: the user key and its tag. */
  datatype InternalKey = InternalKey(user: seq<Byte>, tag: nat)

  /** As it is stored: the user key, then the tag in eight bytes. */
  function KeyBytes(k: InternalKey): seq<Byte>
    requires k.tag < TWO_64
  {
    k.user + EncodeFixed64(k.tag)
  }

  /** ParseInternalKey, but for the check of the type byte. */
  function ParseKey(s: seq<Byte>): Option<InternalKey>
  {
    if |s| < 8 then None else Some(InternalKey(s[..|s| - 8], DecodeFixed64(s[|s| - 8..])))
  }

  lemma ParseStored(k: InternalKey)
    requires k.tag < TWO_64
    ensures ParseKey(KeyBytes(k)) == Some(k)
  {
    var s := KeyBytes(k);
    assert s[..|s| - 8] == k.user && s[|s| - 8..] == EncodeFixed64(k.tag);
  }

  /** The key as the rest of the model orders it. */
  function Order(k: InternalKey): IKey
  {
    IKey(Rank(k.user), k.tag)
  }

  /** InternalKeyComparator::Compare. */
  function InternalCompare(a: InternalKey, b: InternalKey): int
  {
    var r := BytewiseCompare(a.user, b.user);
    if r != 0 then r
    else if a.tag > b.tag then -1
    else if a.tag < b.tag then 1
    else 0
  }

  lemma InternalCompareOrders(a: InternalKey, b: InternalKey)
    ensures InternalCompare(a, b) < 0 <==> Before(Order(a), Order(b))
  {
    RankOrders(a.user, b.user);
    RankOrders(b.user, a.user);
  }

  /** The earliest tag of a user key: what a shortened key is given. */
  const FIRST_TAG: nat := MAX_SEQUENCE * 256 + TYPE_FOR_SEEK

  /** The short key for a user key, with the first tag of all, if it is shorter and later; else the whole key. */
  ghost predicate ShortKey(key: InternalKey, short: seq<Byte>, r: InternalKey)
  {
    r == if |short| < |key.user| && Rank(key.user) < Rank(short) then InternalKey(short, FIRST_TAG) else key
  }

  ghost predicate IsSeparator(start: InternalKey, limit: InternalKey, r: InternalKey)
  {
    exists d, short :: Shortened(start.user, limit.user, d, short) && ShortKey(start, short, r)
  }

  ghost predicate IsSuccessor(key: InternalKey, r: InternalKey)
  {
    exists short :: Succeeds(key.user, short) && ShortKey(key, short, r)
  }

  method InternalSeparator(start: InternalKey, limit: InternalKey) returns (r: InternalKey)
    ensures !Before(Order(r), Order(start)) && (start.tag < TWO_64 ==> r.tag < TWO_64)
    ensures Before(Order(start), Order(limit)) ==> Before(Order(r), Order(limit))
    ensures Before(Order(start), Order(limit)) ==> r == start || Order(r).user < Order(limit).user
    ensures IsSeparator(start, limit, r)
  {
    var userStart, userLimit := start.user, limit.user;
    var tmp := FindShortestSeparator(userStart, userLimit);
    RankOrders(userStart, userLimit);
    if |tmp| < |userStart| && Rank(userStart) < Rank(tmp) {
      r := InternalKey(tmp, FIRST_TAG);
    } else {
      r := start;
    }
    assert ShortKey(start, tmp, r);
  }

  method InternalSuccessor(key: InternalKey) returns (r: InternalKey)
    ensures !Before(Order(r), Order(key)) && (key.tag < TWO_64 ==> r.tag < TWO_64)
    ensures IsSuccessor(key, r)
  {
    var user := key.user;
    var tmp := FindShortSuccessor(user);
    hide Succeeds;
    if |tmp| < |user| && Rank(user) < Rank(tmp) {
      r := InternalKey(tmp, FIRST_TAG);
    } else {
      r := key;
    }
    assert ShortKey(key, tmp, r);
  }

  lemma OneShortened(a: seq<Byte>, b: seq<Byte>, d: nat, r: seq<Byte>, d2: nat, r2: seq<Byte>)
    requires Shortened(a, b, d, r) && Shortened(a, b, d2, r2)
    ensures d == d2 && r == r2
  {
    SamePrefix(a, b, d);
    SamePrefix(a, b, d2);
  }

  lemma OneSuccessor(key: seq<Byte>, r: seq<Byte>, r2: seq<Byte>)
    requires Succeeds(key, r) && Succeeds(key, r2)
    ensures r == r2
  {
    if Raised(key, r) && Raised(key, r2) {
      assert key[|r| - 1] != 0xff && key[|r2| - 1] != 0xff;
      assert r == r[..|r| - 1] + [r[|r| - 1]] && r2 == r2[..|r2| - 1] + [r2[|r2| - 1]];
    }
  }

  /** The separator and the successor are given by the keys. */
  lemma OneSeparator(start: InternalKey, limit: InternalKey, r: InternalKey, r2: InternalKey)
    requires IsSeparator(start, limit, r) && IsSeparator(start, limit, r2)
    ensures r == r2
  {
    hide Shortened;
    var d, short :| Shortened(start.user, limit.user, d, short) && ShortKey(start, short, r);
    var d2, short2 :| Shortened(start.user, limit.user, d2, short2) && ShortKey(start, short2, r2);
    OneShortened(start.user, limit.user, d, short, d2, short2);
  }

  lemma OneInternalSuccessor(key: InternalKey, r: InternalKey, r2: InternalKey)
    requires IsSuccessor(key, r) && IsSuccessor(key, r2)
    ensures r == r2
  {
    hide Succeeds;
    var short :| Succeeds(key.user, short) && ShortKey(key, short, r);
    var short2 :| Succeeds(key.user, short2) && ShortKey(key, short2, r2);
    OneSuccessor(key.user, short, short2);
  }
}
