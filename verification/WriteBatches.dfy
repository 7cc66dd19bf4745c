/** Write batches (db/write_batch.cc): operations packed into one byte string, which
    is also the record the log stores. */
module WriteBatches {
  import opened Wrappers
  import opened Keys
  import opened Coding

  const HEADER: nat := 12

  /** What a handler is given: a put or a delete. */
  datatype Update = Update(key: seq<Byte>, op: Op)

  function EncodeUpdate(u: Update): (r: seq<Byte>)
    ensures |r| > 0
  {
    match u.op
    case Put(value) => [TYPE_VALUE] + (LengthPrefixed(u.key) + LengthPrefixed(value))
    case Delete => [TYPE_DELETION] + LengthPrefixed(u.key)
  }

  function EncodeAll(updates: seq<Update>): seq<Byte>
  {
    if updates == [] then [] else EncodeUpdate(updates[0]) + EncodeAll(updates[1..])
  }

  /** The byte string of a batch: sequence number, count, records. */
  function Encode(sequence: nat, updates: seq<Update>): seq<Byte>
    requires sequence < TWO_64 && |updates| < TWO_32
  {
    EncodeFixed64(sequence) + EncodeFixed32(|updates|) + EncodeAll(updates)
  }

  ghost predicate Fits(u: Update)
  {
    |u.key| < TWO_32 && (u.op.Put? ==> |u.op.value| < TWO_32)
  }

  /** One record of the batch and where it ends. */
  function ReadUpdate(s: seq<Byte>, p: nat): (r: Option<(Update, nat)>)
    requires p < |s|
    ensures r.Some? ==> p < r.value.1 <= |s|
  {
    if s[p] == TYPE_VALUE then
      match ReadLengthPrefixed(s, p + 1)
      case None => None
      case Some(key) =>
        (match ReadLengthPrefixed(s, key.1)
         case None => None
         case Some(value) => Some((Update(key.0, Put(value.0)), value.1)))
    else if s[p] == TYPE_DELETION then
      match ReadLengthPrefixed(s, p + 1)
      case None => None
      case Some(key) => Some((Update(key.0, Delete), key.1))
    else None
  }

  /** The records up to the end or the first bad one, and whether the end was reached. */
  function ReadAll(s: seq<Byte>, p: nat): (seq<Update>, bool)
    requires p <= |s|
    decreases |s| - p
  {
    if p == |s| then ([], true)
    else
      match ReadUpdate(s, p)
      case None => ([], false)
      case Some(u) =>
        var rest := ReadAll(s, u.1);
        ([u.0] + rest.0, rest.1)
  }

  lemma UpdateRoundTrip(u: Update, s: seq<Byte>, p: nat)
    requires Fits(u) && At(s, p, EncodeUpdate(u))
    ensures p < |s| && ReadUpdate(s, p) == Some((u, p + |EncodeUpdate(u)|))
  {
    hide ReadLengthPrefixed;
    hide LengthPrefixed;
    assert s[p] == s[p..p + |EncodeUpdate(u)|][0] == EncodeUpdate(u)[0];
    match u.op
    case Put(value) =>
      AtBoth(s, p, [TYPE_VALUE], LengthPrefixed(u.key) + LengthPrefixed(value));
      AtBoth(s, p + 1, LengthPrefixed(u.key), LengthPrefixed(value));
      SliceAt(u.key, s, p + 1);
      SliceAt(value, s, p + 1 + |LengthPrefixed(u.key)|);
    case Delete =>
      AtBoth(s, p, [TYPE_DELETION], LengthPrefixed(u.key));
      SliceAt(u.key, s, p + 1);
  }

  lemma {:induction false} AllRoundTrip(updates: seq<Update>, s: seq<Byte>, p: nat)
    requires (forall u :: u in updates ==> Fits(u)) && p + |EncodeAll(updates)| == |s| && At(s, p, EncodeAll(updates))
    ensures ReadAll(s, p) == (updates, true)
  {
    hide ReadUpdate;
    hide EncodeUpdate;
    if updates == [] {
      assert ReadAll(s, |s|) == ([], true);
    } else {
      var first, rest := EncodeUpdate(updates[0]), updates[1..];
      assert EncodeAll(updates) == first + EncodeAll(rest);
      AtBoth(s, p, first, EncodeAll(rest));
      UpdateRoundTrip(updates[0], s, p);
      AllRoundTrip(rest, s, p + |first|);
      ReadsOne(s, p, updates[0], p + |first|);
      assert updates == [updates[0]] + rest;
    }
  }

  lemma ReadsOne(s: seq<Byte>, p: nat, u: Update, q: nat)
    requires p < |s| && ReadUpdate(s, p) == Some((u, q))
    ensures p < q <= |s| && ReadAll(s, p) == ([u] + ReadAll(s, q).0, ReadAll(s, q).1)
  {
    hide ReadUpdate;
  }

  lemma {:induction false} EncodeAllAppend(a: seq<Update>, b: seq<Update>)
    ensures EncodeAll(a + b) == EncodeAll(a) + EncodeAll(b)
  {
    hide EncodeUpdate;
    if a == [] {
      assert a + b == b;
    } else {
      EncodeAllAppend(a[1..], b);
      assert (a + b)[1..] == a[1..] + b && (a + b)[0] == a[0];
      assert EncodeUpdate(a[0]) + (EncodeAll(a[1..]) + EncodeAll(b)) == EncodeAll(a) + EncodeAll(b);
    }
  }

  lemma Parts(sequence: nat, updates: seq<Update>)
    requires sequence < TWO_64 && |updates| < TWO_32
    ensures var rep := Encode(sequence, updates);
      && |rep| >= HEADER && rep[..8] == EncodeFixed64(sequence) && rep[8..12] == EncodeFixed32(|updates|)
      && rep[HEADER..] == EncodeAll(updates)
  {
  }

  /** Entry i of a batch is numbered sequence + i. */
  function Entries(sequence: nat, updates: seq<Update>): (r: seq<Entry>)
    ensures |r| == |updates|
  {
    seq(|updates|, (i: nat) requires i < |updates| => Entry(Rank(updates[i].key), sequence + i, updates[i].op))
  }

  datatype Status = Ok | Corruption

  class WriteBatch {
    var rep: seq<Byte>
    ghost var sequence: nat
    ghost var updates: seq<Update>

    ghost predicate Valid()
      reads this
    {
      && sequence < TWO_64 && |updates| < TWO_32 && (forall u :: u in updates ==> Fits(u))
      && rep == Encode(sequence, updates)
    }

    constructor ()
      ensures Valid() && updates == [] && sequence == 0
    {
      rep, sequence, updates := seq(HEADER, i => 0), 0, [];
      new;
      assert EncodeFixed64(0) == [0, 0, 0, 0, 0, 0, 0, 0];
      assert EncodeFixed32(0) == [0, 0, 0, 0];
    }

    function Count(): nat
      requires |rep| >= HEADER
      reads this
    {
      DecodeFixed32(rep[8..12])
    }

    function Sequence(): nat
      requires |rep| >= HEADER
      reads this
    {
      DecodeFixed64(rep[..8])
    }

    /** The header says what the batch holds. */
    lemma HeaderIs()
      requires Valid()
      ensures |rep| >= HEADER && Count() == |updates| && Sequence() == sequence && rep[HEADER..] == EncodeAll(updates)
    {
      Parts(sequence, updates);
    }

    method SetCount(n: nat)
      requires |rep| >= HEADER && n < TWO_32
      modifies this`rep
      ensures rep == old(rep)[..8] + EncodeFixed32(n) + old(rep)[HEADER..]
    {
      rep := rep[..8] + EncodeFixed32(n) + rep[HEADER..];
    }

    method SetSequence(seqno: nat)
      requires Valid() && seqno < TWO_64
      modifies this
      ensures Valid() && sequence == seqno && updates == old(updates)
    {
      HeaderIs();
      Parts(sequence, updates);
      rep := EncodeFixed64(seqno) + rep[8..];
      sequence := seqno;
      assert rep == Encode(seqno, updates);
    }

    method Put(key: seq<Byte>, value: seq<Byte>)
      requires Valid() && |updates| + 1 < TWO_32 && |key| < TWO_32 && |value| < TWO_32
      modifies this
      ensures Valid() && sequence == old(sequence) && updates == old(updates) + [Update(key, Op.Put(value))]
    {
      hide LengthPrefixed;
      hide EncodeFixed32;
      hide EncodeFixed64;
      hide EncodeAll;
      HeaderIs();
      Parts(sequence, updates);
      hide Encode;
      SetCount(Count() + 1);
      rep := rep + [TYPE_VALUE];
      rep := rep + LengthPrefixed(key);
      rep := rep + LengthPrefixed(value);
      Grown(sequence, updates, Update(key, Op.Put(value)));
      updates := updates + [Update(key, Op.Put(value))];
    }

    method Delete(key: seq<Byte>)
      requires Valid() && |updates| + 1 < TWO_32 && |key| < TWO_32
      modifies this
      ensures Valid() && sequence == old(sequence) && updates == old(updates) + [Update(key, Op.Delete)]
    {
      hide LengthPrefixed;
      hide EncodeFixed32;
      hide EncodeFixed64;
      hide EncodeAll;
      HeaderIs();
      Parts(sequence, updates);
      hide Encode;
      SetCount(Count() + 1);
      rep := rep + [TYPE_DELETION];
      rep := rep + LengthPrefixed(key);
      Grown(sequence, updates, Update(key, Op.Delete));
      updates := updates + [Update(key, Op.Delete)];
    }

    /** WriteBatchInternal::Append, as the leader of a group does it. */
    method Append(src: WriteBatch)
      requires Valid() && src.Valid() && src != this && |updates| + |src.updates| < TWO_32
      modifies this
      ensures Valid() && sequence == old(sequence) && updates == old(updates) + src.updates
    {
      hide EncodeFixed32;
      hide EncodeFixed64;
      hide EncodeAll;
      HeaderIs();
      Parts(sequence, updates);
      src.HeaderIs();
      SetCount(Count() + src.Count());
      rep := rep + src.rep[HEADER..];
      EncodeAllAppend(updates, src.updates);
      updates := updates + src.updates;
      assert rep == Encode(sequence, updates);
    }
  }

  lemma Grown(sequence: nat, updates: seq<Update>, u: Update)
    requires sequence < TWO_64 && |updates| + 1 < TWO_32
    ensures Encode(sequence, updates + [u])
      == Encode(sequence, updates)[..8] + EncodeFixed32(|updates| + 1) + EncodeAll(updates) + EncodeUpdate(u)
  {
    hide EncodeUpdate;
    hide EncodeFixed32;
    hide EncodeFixed64;
    EncodeAllAppend(updates, [u]);
    assert EncodeAll([u]) == EncodeUpdate(u);
    Parts(sequence, updates);
  }

  /** Iterate with a MemTableInserter: `adds` are the calls of MemTable::Add. Whatever
      the bytes are, they are the records before the first bad one; it succeeds when
      there is no bad record and the count is right. */
  method InsertInto(rep: seq<Byte>) returns (adds: seq<Entry>, status: Status)
    ensures |rep| < HEADER ==> adds == [] && status == Corruption
    ensures |rep| >= HEADER ==> var all := ReadAll(rep, HEADER);
      && adds == Entries(DecodeFixed64(rep[..8]), all.0)
      && (status == Ok <==> all.1 && |all.0| == DecodeFixed32(rep[8..12]))
  {
    adds := [];
    if |rep| < HEADER {
      return adds, Corruption;
    }
    hide ReadUpdate;
    hide ReadAll;
    hide ReadSoFar;
    hide Entries;
    hide Rank;
    hide DecodeFixed32;
    hide DecodeFixed64;
    ghost var first := DecodeFixed64(rep[..8]);
    var sequence := DecodeFixed64(rep[..8]);
    ghost var done: seq<Update> := [];
    var p, found := HEADER, 0;
    NothingRead(rep, first);
    while p < |rep|
      invariant HEADER <= p <= |rep| && found == |done| && sequence == first + |done|
      invariant adds == Entries(first, done) && ReadSoFar(rep, p, done)
      decreases |rep| - p
    {
      found := found + 1;
      var u := NextUpdate(rep, p);
      if u.None? {
        ReadingEnds(rep, p, done);
        return adds, Corruption;
      }
      OneMoreRead(rep, p, done, u.value.0, u.value.1, first);
      adds := adds + [Entry(Rank(u.value.0.key), sequence, u.value.0.op)];
      sequence, p, done := sequence + 1, u.value.1, done + [u.value.0];
    }
    ReadingEnds(rep, p, done);
    status := if found != DecodeFixed32(rep[8..12]) then Corruption else Ok;
  }

  /** The records up to position `p` are `done`. */
  ghost predicate ReadSoFar(rep: seq<Byte>, p: nat, done: seq<Update>)
    requires HEADER <= p <= |rep|
  {
    ReadAll(rep, HEADER) == (done + ReadAll(rep, p).0, ReadAll(rep, p).1)
  }

  lemma NothingRead(rep: seq<Byte>, first: nat)
    requires HEADER <= |rep|
    ensures ReadSoFar(rep, HEADER, []) && Entries(first, []) == []
  {
    hide ReadAll;
    var all := ReadAll(rep, HEADER);
    assert [] + all.0 == all.0;
  }

  lemma OneMoreRead(rep: seq<Byte>, p: nat, done: seq<Update>, u: Update, q: nat, first: nat)
    requires HEADER <= p < |rep| && ReadSoFar(rep, p, done) && ReadUpdate(rep, p) == Some((u, q))
    ensures p < q <= |rep| && ReadSoFar(rep, q, done + [u])
    ensures Entries(first, done + [u]) == Entries(first, done) + [Entry(Rank(u.key), first + |done|, u.op)]
  {
    hide ReadUpdate;
    hide Rank;
    ReadsOne(rep, p, u, q);
    hide ReadAll;
    assert done + ([u] + ReadAll(rep, q).0) == (done + [u]) + ReadAll(rep, q).0;
  }

  lemma ReadingEnds(rep: seq<Byte>, p: nat, done: seq<Update>)
    requires HEADER <= p <= |rep| && ReadSoFar(rep, p, done)
    ensures p == |rep| ==> ReadAll(rep, HEADER) == (done, true)
    ensures p < |rep| && ReadUpdate(rep, p) == None ==> ReadAll(rep, HEADER) == (done, false)
  {
    hide ReadUpdate;
    assert p < |rep| && ReadUpdate(rep, p) == None ==> ReadAll(rep, p) == ([], false);
    assert done + [] == done;
  }

  /** The switch of Iterate's loop. */
  method NextUpdate(rep: seq<Byte>, p: nat) returns (r: Option<(Update, nat)>)
    requires p < |rep|
    ensures r == ReadUpdate(rep, p)
  {
    if rep[p] == TYPE_VALUE {
      var key := ReadLengthPrefixed(rep, p + 1);
      if key.None? {
        return None;
      }
      var value := ReadLengthPrefixed(rep, key.value.1);
      r := if value.None? then None else Some((Update(key.value.0, Op.Put(value.value.0)), value.value.1));
    } else if rep[p] == TYPE_DELETION {
      var key := ReadLengthPrefixed(rep, p + 1);
      r := if key.None? then None else Some((Update(key.value.0, Op.Delete), key.value.1));
    } else {
      r := None;
    }
  }

  /** A batch that went through the log inserts what was put into it, in order and
      numbered from its sequence number. */
  lemma BatchRoundTrip(sequence: nat, updates: seq<Update>)
    requires sequence < TWO_64 && |updates| < TWO_32 && forall u :: u in updates ==> Fits(u)
    ensures var rep := Encode(sequence, updates);
      && |rep| >= HEADER && DecodeFixed64(rep[..8]) == sequence && DecodeFixed32(rep[8..12]) == |updates|
      && ReadAll(rep, HEADER) == (updates, true)
  {
    Parts(sequence, updates);
    var rep := Encode(sequence, updates);
    assert rep[HEADER..HEADER + |EncodeAll(updates)|] == EncodeAll(updates);
    AllRoundTrip(updates, rep, HEADER);
  }
}
