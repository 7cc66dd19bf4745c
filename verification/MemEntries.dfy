/** Memtable entries as bytes in the arena (db/memtable.cc). */
module MemEntries {
  import opened Wrappers
  import opened Keys
  import opened Coding
  import opened Separators

  ghost predicate EntryFits(user: seq<Byte>, seqno: nat, op: Op)
  {
    |user| + 8 < TWO_32 && seqno <= MAX_SEQUENCE && (op.Put? ==> |op.value| < TWO_32)
  }

  function TypeOf(op: Op): nat
  {
    if op.Put? then TYPE_VALUE else TYPE_DELETION
  }

  /** MemTable::Add: the internal key and the value, each with its length; a
      deletion has an empty value. */
  function EncodeEntry(user: seq<Byte>, seqno: nat, op: Op): seq<Byte>
    requires seqno <= MAX_SEQUENCE
  {
    LengthPrefixed(KeyBytes(InternalKey(user, Pack(seqno, TypeOf(op)))))
      + LengthPrefixed(if op.Put? then op.value else [])
  }

  datatype Answer = Unmatched | Deleted | Value(value: seq<Byte>)

  /** Where the pieces of an entry are. */
  lemma EntryBytes(s: seq<Byte>, p: nat, user: seq<Byte>, seqno: nat, op: Op)
    requires EntryFits(user, seqno, op) && At(s, p, EncodeEntry(user, seqno, op))
    ensures var length := ReadNumber(s, p, false);
      && length.Some? && length.value.0 >= 8 && length.value.1 + length.value.0 <= |s|
      && var end := length.value.1 + length.value.0;
      && s[length.value.1..end - 8] == user && DecodeFixed64(s[end - 8..end]) == Pack(seqno, TypeOf(op))
      && ReadLengthPrefixed(s, end).Some? && ReadLengthPrefixed(s, end).value.0 == (if op.Put? then op.value else [])
  {
    hide ReadNumber;
    hide ReadLengthPrefixed;
    hide DecodeFixed64;
    hide EncodeFixed64;
    hide Varint;
    hide KeyBytes;
    hide Pack;
    EntryFields(user, seqno, op);
    var key := KeyBytes(InternalKey(user, Pack(seqno, TypeOf(op))));
    var stored := if op.Put? then op.value else [];
    EntryParts(s, p, key, stored);
  }

  lemma EntryParts(s: seq<Byte>, p: nat, key: seq<Byte>, stored: seq<Byte>)
    requires 8 <= |key| < TWO_32 && |stored| < TWO_32 && At(s, p, LengthPrefixed(key) + LengthPrefixed(stored))
    ensures var q := p + |Varint(|key|)|;
      var end := q + |key|;
      && end <= |s| && ReadNumber(s, p, false) == Some((|key|, q))
      && s[q..end - 8] == key[..|key| - 8] && s[end - 8..end] == key[|key| - 8..]
      && ReadLengthPrefixed(s, end) == Some((stored, end + |LengthPrefixed(stored)|))
  {
    hide ReadNumber;
    hide ReadLengthPrefixed;
    hide Varint;
    var q := p + |Varint(|key|)|;
    AtBoth(s, p, LengthPrefixed(key), LengthPrefixed(stored));
    AtBoth(s, p, Varint(|key|), key);
    SliceAt(stored, s, p + |LengthPrefixed(key)|);
    NumberAt(|key|, s, p, false);
    assert s[q..q + |key|][..|key| - 8] == s[q..q + |key| - 8];
    assert s[q..q + |key|][|key| - 8..] == s[q + |key| - 8..q + |key|];
  }

  /** MemTable::Get on the entry its seek arrived at: is it the user key, and what
      does it say? */
  method ReadEntry(s: seq<Byte>, p: nat, user: seq<Byte>, ghost found: seq<Byte>, ghost seqno: nat, ghost op: Op)
    returns (r: Answer)
    requires EntryFits(found, seqno, op) && At(s, p, EncodeEntry(found, seqno, op))
    ensures r == if found != user then Unmatched else if op.Put? then Value(op.value) else Deleted
  {
    hide ReadNumber;
    hide ReadLengthPrefixed;
    hide DecodeFixed64;
    hide At;
    hide Pack;
    EntryBytes(s, p, found, seqno, op);
    var length := ReadNumber(s, p, false).value;
    var end := length.1 + length.0;
    if s[length.1..end - 8] != user {
      return Unmatched;
    }
    var tag := DecodeFixed64(s[end - 8..end]);
    EntryFields(found, seqno, op);
    if tag % 256 == TYPE_VALUE {
      r := Value(ReadLengthPrefixed(s, end).value.0);
    } else {
      r := Deleted;
    }
  }

  lemma EntryFields(user: seq<Byte>, seqno: nat, op: Op)
    requires EntryFits(user, seqno, op)
    ensures var tag := Pack(seqno, TypeOf(op));
      && tag < TWO_64 && tag % 256 == TypeOf(op)
      && var key := KeyBytes(InternalKey(user, tag));
      && 8 <= |key| < TWO_32 && key[..|key| - 8] == user && DecodeFixed64(key[|key| - 8..]) == tag
  {
    hide EncodeFixed64;
    hide DecodeFixed64;
    var tag := Pack(seqno, TypeOf(op));
    assert tag == seqno * 256 + TypeOf(op);
    ParseStored(InternalKey(user, tag));
  }
}
