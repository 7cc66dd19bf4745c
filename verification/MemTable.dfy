/** The memtable as a sorted entry list (db/memtable.cc); the skip list that
    keeps it is modelled in SkipLists. */
module MemTable {
  import opened Keys
  import opened Files

  /** MemTable::Add: the entry takes its place in key order. */
  function Add(mem: seq<Entry>, e: Entry): seq<Entry>
  {
    var i := FirstAtOrAfter(mem, KeyOf(e));
    mem[..i] + [e] + mem[i..]
  }

  /** The memtable after some insertions. */
  function MemOf(writes: seq<Entry>): (mem: seq<Entry>)
    ensures mem == [] <==> writes == []
  {
    if writes == [] then [] else Add(MemOf(writes[..|writes| - 1]), writes[|writes| - 1])
  }

  lemma AddKeepsOrder(mem: seq<Entry>, e: Entry)
    requires StrictlySorted(mem) && forall x :: x in mem ==> x.seqno != e.seqno
    ensures StrictlySorted(Add(mem, e))
    ensures forall x :: x in Add(mem, e) <==> x in mem || x == e
  {
    var i := FirstAtOrAfter(mem, KeyOf(e));
    forall j | i <= j < |mem|
      ensures EntryBefore(e, mem[j])
    {
      assert mem[i] in mem;
      assert i < j ==> EntryBefore(mem[i], mem[j]);
    }
    InsertedInOrder(mem, e, i);
  }

  lemma InsertedInOrder(mem: seq<Entry>, e: Entry, i: nat)
    requires StrictlySorted(mem) && i <= |mem|
    requires forall j :: 0 <= j < i ==> EntryBefore(mem[j], e)
    requires forall j :: i <= j < |mem| ==> EntryBefore(e, mem[j])
    ensures StrictlySorted(mem[..i] + [e] + mem[i..])
    ensures forall x :: x in mem[..i] + [e] + mem[i..] <==> x in mem || x == e
  {
    assert mem == mem[..i] + mem[i..];
  }

  /** A lookup is not disturbed by entries newer than its snapshot. */
  lemma NewerEntriesUnseen(mem: seq<Entry>, later: seq<Entry>, k: Key, snapshot: nat)
    requires StrictlySorted(mem) && StrictlySorted(later)
    requires forall x :: x in mem ==> x in later
    requires forall x :: x in later && x !in mem ==> x.seqno > snapshot
    requires forall x, y :: x in later && y in later && x.seqno == y.seqno ==> x == y
    ensures SeekUser(later, k, snapshot) == SeekUser(mem, k, snapshot)
  {
    SeekUserFindsNewest(mem, k, snapshot);
    SeekUserFindsNewest(later, k, snapshot);
  }
}
